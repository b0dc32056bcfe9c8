/** The background miner: one producer, one worker thread, a command queue and a shared generation
    counter, as a state machine over their atomic steps in any interleaving.

    The counter is read with relaxed ordering. The worker may therefore load an old value, but never
    one older than what the last command it received proves to have been stored. */
module MinerWorker {
  import opened Primitives
  import opened Types
  import Consensus
  import Candidate

  const CANCEL_CHECK_INTERVAL: int := 4096

  /** Each command carries the generation its counter increment produced. */
  datatype Command =
    | Submit(generation: nat, candidate: Block)
    | Cancel(generation: nat)
    | Stop(generation: nat)

  /** Where the worker is: waiting for a command, about to load the counter, about to test the
      current nonce, draining the queue, or ended. */
  datatype Phase = Receiving | Checking | Testing | Draining | Ended

  datatype Work = Work(generation: nat, block: Block)

  datatype Worker = Worker(phase: Phase, current: Option<Work>, replaceCurrent: bool, seen: nat, loaded: nat)

  /** A solved block sent to the server, with the counter value loaded just before. */
  datatype Report = Report(generation: nat, block: Block, loaded: nat)

  /** `unsent` is a command whose increment has happened but which is not in the queue yet. */
  datatype World = World(
    generation: nat,
    unsent: Option<Command>,
    queue: seq<Command>,
    worker: Worker,
    submitted: map<nat, Block>,
    reports: seq<Report>)

  function Start(): World {
    World(0, None, [], Worker(Receiving, None, false, 0, 0), map[], [])
  }

  datatype Request = SubmitRequest(candidate: Block) | CancelRequest | StopRequest

  datatype Action =
    | Bump(request: Request)
    | Send
    | Receive
    | Load(value: nat)
    | Test
    | Drain

  // ---- Steps ------------------------------------------------------------------------------

  /** The counter is 64 bits wide and wraps. */
  function NextGeneration(g: nat): nat {
    (g + 1) % (U64_MAX + 1)
  }

  function Tag(request: Request, generation: nat): Command {
    match request
    case SubmitRequest(candidate) => Submit(generation, candidate)
    case CancelRequest => Cancel(generation)
    case StopRequest => Stop(generation)
  }

  predicate StopIssued(w: World) {
    || w.worker.phase == Ended
    || (w.unsent.Some? && w.unsent.value.Stop?)
    || exists i :: 0 <= i < |w.queue| && w.queue[i].Stop?
  }

  predicate Enabled(w: World, a: Action) {
    match a
    case Bump(_) => w.unsent.None? && !StopIssued(w)
    case Send => w.unsent.Some?
    case Receive => w.worker.phase == Receiving && w.queue != []
    case Load(v) => w.worker.phase == Checking && w.worker.current.Some? && w.worker.seen <= v <= w.generation
    case Test => w.worker.phase == Testing && w.worker.current.Some?
    case Drain => w.worker.phase == Draining
  }

  /** The worker after taking `c` from the queue. */
  function Taken(worker: Worker, c: Command): Worker {
    var seen := c.generation;
    match c
    case Submit(g, candidate) => worker.(current := Some(Work(g, candidate)), replaceCurrent := false, seen := seen)
    case Cancel(_) => worker.(current := None, replaceCurrent := false, seen := seen)
    case Stop(_) => worker.(phase := Ended, seen := seen)
  }

  /** The top of the outer loop: wait when there is no work, otherwise start an attempt. */
  function LoopTop(worker: Worker): Worker {
    if worker.phase == Ended then worker
    else worker.(phase := if worker.current.None? then Receiving else Checking, replaceCurrent := false)
  }

  function Advance(b: Block): Block {
    Candidate.WithNonce(b, (b.header.nonce + 1) % (U32_MAX + 1))
  }

  function Step(w: World, a: Action): World
    requires Enabled(w, a)
  {
    match a
    case Bump(request) =>
      var g := NextGeneration(w.generation);
      w.(generation := g, unsent := Some(Tag(request, g)),
         submitted := if request.SubmitRequest? then w.submitted[g := request.candidate] else w.submitted)
    case Send => w.(unsent := None, queue := w.queue + [w.unsent.value])
    case Receive => w.(queue := w.queue[1..], worker := LoopTop(Taken(w.worker, w.queue[0])))
    case Load(v) =>
      if v != w.worker.current.value.generation then
        w.(worker := w.worker.(phase := Draining, replaceCurrent := true, loaded := v))
      else w.(worker := w.worker.(phase := Testing, loaded := v))
    case Test =>
      var work := w.worker.current.value;
      if Consensus.ValidateBlock(work.block).Ok? then
        w.(worker := w.worker.(phase := Draining, current := None, replaceCurrent := false),
           reports := w.reports + [Report(work.generation, work.block, w.worker.loaded)])
      else
        var next := Advance(work.block);
        w.(worker := w.worker.(
             phase := if next.header.nonce % CANCEL_CHECK_INTERVAL == 0 then Draining else Checking,
             current := Some(work.(block := next))))
    case Drain =>
      if w.queue != [] then w.(queue := w.queue[1..], worker := Taken(w.worker, w.queue[0]))
      else w.(worker := LoopTop(
                if w.worker.replaceCurrent then w.worker.(current := None) else w.worker))
  }

  /** The state after `actions`, or `None` when one of them was not enabled. */
  function Run(actions: seq<Action>): Option<World> {
    if actions == [] then Some(Start())
    else
      match Run(actions[..|actions| - 1])
      case None => None
      case Some(w) =>
        var last := actions[|actions| - 1];
        if Enabled(w, last) then Some(Step(w, last)) else None
  }

  // ---- Invariant --------------------------------------------------------------------------

  /** Commands on their way to the worker, oldest first. */
  ghost function Pipeline(w: World): seq<Command> {
    w.queue + if w.unsent.Some? then [w.unsent.value] else []
  }

  /** Every increment since the last received command has exactly one command under way, in order. */
  ghost predicate InOrder(w: World) {
    && w.worker.seen + |Pipeline(w)| == w.generation
    && forall i :: 0 <= i < |Pipeline(w)| ==> Pipeline(w)[i].generation == w.worker.seen + 1 + i
  }

  ghost predicate Remembered(w: World) {
    && (forall g :: g in w.submitted ==> 0 < g <= w.generation)
    && (forall i :: 0 <= i < |Pipeline(w)| ==>
          (Pipeline(w)[i].Submit? <==> Pipeline(w)[i].generation in w.submitted))
    && (forall i :: 0 <= i < |Pipeline(w)| && Pipeline(w)[i].Submit? ==>
          Pipeline(w)[i].candidate == w.submitted[Pipeline(w)[i].generation])
  }

  predicate SameExceptNonce(a: Block, b: Block) {
    a.header.(nonce := 0) == b.header.(nonce := 0) && a.transactions == b.transactions
  }

  ghost predicate IsReported(w: World, g: nat) {
    exists i :: 0 <= i < |w.reports| && w.reports[i].generation == g
  }

  /** The worker works on the last command it received, if that was a submission. */
  ghost predicate WorkerInv(w: World) {
    var worker := w.worker;
    && (worker.current.Some? && worker.phase != Ended ==>
          && worker.current.value.generation == worker.seen
          && worker.seen in w.submitted
          && SameExceptNonce(worker.current.value.block, w.submitted[worker.seen])
          && !IsReported(w, worker.seen))
    && (worker.phase == Receiving ==> worker.current.None?)
    && (worker.phase == Checking || worker.phase == Testing ==> worker.current.Some? && !worker.replaceCurrent)
    && (worker.phase == Testing ==> worker.loaded == worker.seen)
    && (worker.replaceCurrent && worker.phase != Ended ==> w.generation > worker.seen)
    && (worker.current.None? && worker.seen in w.submitted ==>
          IsReported(w, worker.seen) || w.generation > worker.seen)
    && (worker.phase == Ended ==> worker.seen !in w.submitted)
  }

  ghost predicate ReportsInv(w: World) {
    && (forall i :: 0 <= i < |w.reports| ==>
          var r := w.reports[i];
          && r.generation <= w.worker.seen && r.generation in w.submitted && r.loaded == r.generation
          && Consensus.ValidateBlock(r.block).Ok?
          && SameExceptNonce(r.block, w.submitted[r.generation]))
    && (forall i, j :: 0 <= i < j < |w.reports| ==> w.reports[i].generation < w.reports[j].generation)
  }

  ghost predicate Inv(w: World) {
    InOrder(w) && Remembered(w) && WorkerInv(w) && ReportsInv(w)
  }

  lemma StartInv()
    ensures Inv(Start())
  {
  }

  /** Increments made along a run. */
  function Bumps(actions: seq<Action>): nat {
    if actions == [] then 0
    else Bumps(actions[..|actions| - 1]) + if actions[|actions| - 1].Bump? then 1 else 0
  }

  lemma BumpKeepsInv(w: World, request: Request)
    requires Inv(w) && Enabled(w, Bump(request)) && w.generation < U64_MAX
    ensures Inv(Step(w, Bump(request)))
  {
    hide SameExceptNonce, Consensus.ValidateBlock;
    var v := Step(w, Bump(request));
    assert Pipeline(v) == Pipeline(w) + [Tag(request, w.generation + 1)];
    assert forall g: nat :: IsReported(v, g) <==> IsReported(w, g);
  }

  lemma SendKeepsInv(w: World)
    requires Inv(w) && Enabled(w, Send)
    ensures Inv(Step(w, Send))
  {
    hide SameExceptNonce, Consensus.ValidateBlock;
    var v := Step(w, Send);
    assert Pipeline(v) == Pipeline(w);
    assert forall g: nat :: IsReported(v, g) <==> IsReported(w, g);
  }

  /** Taking a command moves the front of the pipeline to the worker. */
  lemma TakeKeepsInv(w: World, v: World)
    requires Inv(w) && w.queue != [] && w.worker.phase != Ended
    requires v == w.(queue := w.queue[1..], worker := Taken(w.worker, w.queue[0]))
    requires w.worker.phase == Receiving || w.worker.phase == Draining
    ensures InOrder(v) && Remembered(v) && ReportsInv(v)
    ensures v.worker.phase != Ended ==> WorkerInv(v.(worker := v.worker.(phase := Draining)))
    ensures v.worker.phase == Ended ==> WorkerInv(v)
  {
    hide Consensus.ValidateBlock;
    assert Pipeline(w)[0] == w.queue[0] && Pipeline(v) == Pipeline(w)[1..];
    forall i | 0 <= i < |Pipeline(v)|
      ensures Pipeline(v)[i] == Pipeline(w)[i + 1]
    {
    }
    assert forall g: nat :: IsReported(v, g) ==> g <= w.worker.seen;
  }

  lemma LoopTopKeepsInv(w: World, v: World)
    requires Inv(w) && w.worker.phase == Draining && !w.worker.replaceCurrent
    requires v == w.(worker := LoopTop(w.worker))
    ensures Inv(v)
  {
    hide SameExceptNonce, Consensus.ValidateBlock;
    assert Pipeline(v) == Pipeline(w);
    assert forall g: nat :: IsReported(v, g) <==> IsReported(w, g);
  }

  lemma ReceiveKeepsInv(w: World)
    requires Inv(w) && Enabled(w, Receive)
    ensures Inv(Step(w, Receive))
  {
    hide SameExceptNonce, Consensus.ValidateBlock, Inv;
    var v := w.(queue := w.queue[1..], worker := Taken(w.worker, w.queue[0]));
    InvParts(w);
    TakeKeepsInv(w, v);
    if v.worker.phase == Ended {
      InvFromParts(v);
    } else {
      var draining := v.(worker := v.worker.(phase := Draining));
      SamePipeline(v, draining);
      InvFromParts(draining);
      LoopTopKeepsInv(draining, Step(w, Receive));
    }
  }

  lemma InvParts(w: World)
    requires Inv(w)
    ensures InOrder(w) && Remembered(w) && WorkerInv(w) && ReportsInv(w)
  {
  }

  lemma InvFromParts(w: World)
    requires InOrder(w) && Remembered(w) && WorkerInv(w) && ReportsInv(w)
    ensures Inv(w)
  {
  }

  lemma SamePipeline(w: World, v: World)
    requires v == w.(worker := w.worker.(phase := v.worker.phase))
    requires InOrder(w) && Remembered(w) && ReportsInv(w)
    ensures InOrder(v) && Remembered(v) && ReportsInv(v)
  {
    hide SameExceptNonce, Consensus.ValidateBlock;
    assert Pipeline(v) == Pipeline(w);
  }

  lemma DrainKeepsInv(w: World)
    requires Inv(w) && Enabled(w, Drain)
    ensures Inv(Step(w, Drain))
  {
    hide SameExceptNonce, Consensus.ValidateBlock;
    var v := Step(w, Drain);
    if w.queue != [] {
      TakeKeepsInv(w, v);
      assert v.worker.phase != Ended ==> v == v.(worker := v.worker.(phase := Draining));
    } else {
      assert Pipeline(v) == Pipeline(w);
      assert forall g: nat :: IsReported(v, g) <==> IsReported(w, g);
    }
  }

  lemma LoadKeepsInv(w: World, value: nat)
    requires Inv(w) && Enabled(w, Load(value))
    ensures Inv(Step(w, Load(value)))
  {
    hide SameExceptNonce, Consensus.ValidateBlock;
    var v := Step(w, Load(value));
    assert Pipeline(v) == Pipeline(w);
    assert forall g: nat :: IsReported(v, g) <==> IsReported(w, g);
  }

  lemma TestKeepsInv(w: World)
    requires Inv(w) && Enabled(w, Test)
    ensures Inv(Step(w, Test))
  {
    hide Consensus.ValidateBlock;
    var v := Step(w, Test);
    assert Pipeline(v) == Pipeline(w);
    if |v.reports| > |w.reports| {
      var g := w.worker.seen;
      assert v.reports[|w.reports|].generation == g;
      assert forall i :: 0 <= i < |w.reports| ==> w.reports[i].generation <= g && w.reports[i].generation != g;
    }
  }

  lemma StepKeepsInv(w: World, a: Action)
    requires Inv(w) && Enabled(w, a) && (a.Bump? ==> w.generation < U64_MAX)
    ensures Inv(Step(w, a))
    ensures Step(w, a).generation == w.generation + if a.Bump? then 1 else 0
  {
    hide Inv, Enabled, Consensus.ValidateBlock;
    match a {
      case Bump(request) => BumpKeepsInv(w, request);
      case Send => SendKeepsInv(w);
      case Receive => ReceiveKeepsInv(w);
      case Load(value) => LoadKeepsInv(w, value);
      case Test => TestKeepsInv(w);
      case Drain => DrainKeepsInv(w);
    }
  }

  /** The invariant holds in every state of every interleaving with fewer than 2^64 increments. */
  lemma {:induction false} ReachableInv(actions: seq<Action>, w: World)
    requires Run(actions) == Some(w) && Bumps(actions) <= U64_MAX
    ensures Inv(w) && w.generation == Bumps(actions)
  {
    hide Inv, Enabled, Step;
    if actions == [] {
      StartInv();
    } else {
      var front, last := actions[..|actions| - 1], actions[|actions| - 1];
      var v := Run(front).value;
      ReachableInv(front, v);
      StepKeepsInv(v, last);
    }
  }

  // ---- What the server can rely on --------------------------------------------------------

  /** The candidate of generation `g` is still on its way or being worked on. */
  ghost predicate Alive(w: World, g: nat) {
    || (exists i :: 0 <= i < |Pipeline(w)| && Pipeline(w)[i].Submit? && Pipeline(w)[i].generation == g)
    || (w.worker.phase != Ended && w.worker.current.Some? && w.worker.current.value.generation == g)
  }

  /** The latest submission is never lost: until it is reported it is queued, about to be queued, or
      the worker's current work, and then the worker is not about to drop it. */
  lemma LatestIsNeverLost(actions: seq<Action>, w: World)
    requires Run(actions) == Some(w) && Bumps(actions) <= U64_MAX
    requires w.generation in w.submitted
    ensures IsReported(w, w.generation) || Alive(w, w.generation)
    ensures w.worker.phase != Ended && w.worker.current.Some? && w.worker.current.value.generation == w.generation
            ==> !w.worker.replaceCurrent
  {
    hide Enabled, Step, Consensus.ValidateBlock, SameExceptNonce;
    ReachableInv(actions, w);
    if Pipeline(w) != [] {
      var last := |Pipeline(w)| - 1;
      assert Pipeline(w)[last].generation == w.generation;
    }
  }

  /** Once every command has been handled and the worker waits, the latest submission was reported. */
  lemma QuiescentMeansReported(actions: seq<Action>, w: World)
    requires Run(actions) == Some(w) && Bumps(actions) <= U64_MAX
    requires w.generation in w.submitted && Pipeline(w) == [] && w.worker.phase == Receiving
    ensures IsReported(w, w.generation)
  {
    hide Enabled, Step, Consensus.ValidateBlock, SameExceptNonce;
    ReachableInv(actions, w);
  }

  /** Every report is a valid solution of a submitted candidate whose generation was the value just
      loaded from the counter, and no candidate is reported twice. */
  lemma ReportsAreSound(actions: seq<Action>, w: World, i: nat)
    requires Run(actions) == Some(w) && Bumps(actions) <= U64_MAX && i < |w.reports|
    ensures var r := w.reports[i];
            && r.loaded == r.generation && r.generation in w.submitted
            && Consensus.ValidateBlock(r.block).Ok?
            && SameExceptNonce(r.block, w.submitted[r.generation])
            && forall j :: 0 <= j < |w.reports| && j != i ==> w.reports[j].generation != r.generation
  {
    hide Enabled, Step, Consensus.ValidateBlock, SameExceptNonce;
    ReachableInv(actions, w);
  }
}
