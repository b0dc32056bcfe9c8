/** Which nonces the background miner tests: all of them in order, from the submitted one on. */
module MinerSearch {
  import opened Primitives
  import opened Types
  import opened MinerWorker
  import Consensus

  /** Nonce number `k` of the search that starts at `candidate`; the nonce is 32 bits wide and wraps. */
  function Attempt(candidate: Block, k: nat): Block {
    candidate.(header := candidate.header.(nonce := (candidate.header.nonce + k) % 0x1_0000_0000))
  }

  ghost predicate AllFail(candidate: Block, k: nat) {
    forall j: nat :: j < k ==> Consensus.ValidateBlock(Attempt(candidate, j)).Err?
  }

  /** `b` is the first attempt that is valid. */
  ghost predicate FirstSolution(candidate: Block, b: Block) {
    exists k: nat :: b == Attempt(candidate, k) && Consensus.ValidateBlock(b).Ok? && AllFail(candidate, k)
  }

  predicate Takes(w: World, a: Action) {
    a.Receive? || (a.Drain? && w.queue != [])
  }

  predicate Fails(w: World, a: Action) {
    a.Test? && w.worker.current.Some? && Consensus.ValidateBlock(w.worker.current.value.block).Err?
  }

  /** Tests that have failed since the worker last took a command. */
  function FailedTests(actions: seq<Action>): nat {
    if actions == [] then 0
    else
      var front, last := actions[..|actions| - 1], actions[|actions| - 1];
      match Run(front)
      case None => 0
      case Some(w) => if Takes(w, last) then 0 else FailedTests(front) + if Fails(w, last) then 1 else 0
  }

  /** The worker stands at attempt number `k` of the last candidate it took, and every earlier one failed. */
  ghost predicate SearchedTo(w: World, k: nat) {
    w.worker.current.Some? && w.worker.phase != Ended ==>
      && w.worker.seen in w.submitted
      && w.worker.current.value.block == Attempt(w.submitted[w.worker.seen], k)
      && AllFail(w.submitted[w.worker.seen], k)
  }

  ghost predicate FirstReported(w: World) {
    forall i :: 0 <= i < |w.reports| ==>
      && w.reports[i].generation in w.submitted
      && FirstSolution(w.submitted[w.reports[i].generation], w.reports[i].block)
  }

  lemma AttemptZero(candidate: Block)
    ensures Attempt(candidate, 0) == candidate && AllFail(candidate, 0)
  {
  }

  lemma NextAttempt(candidate: Block, k: nat)
    ensures Advance(Attempt(candidate, k)) == Attempt(candidate, k + 1)
  {
    var n := candidate.header.nonce + k;
    assert (n % 0x1_0000_0000 + 1) % 0x1_0000_0000 == (n + 1) % 0x1_0000_0000;
  }

  lemma OneMoreFails(candidate: Block, k: nat)
    requires AllFail(candidate, k) && Consensus.ValidateBlock(Attempt(candidate, k)).Err?
    ensures AllFail(candidate, k + 1)
  {
    hide Consensus.ValidateBlock;
  }

  /** Taking a command starts the search at the submitted nonce. */
  lemma TakeStartsSearch(w: World, a: Action)
    requires Inv(w) && Enabled(w, a) && Takes(w, a)
    ensures SearchedTo(Step(w, a), 0)
  {
    hide Consensus.ValidateBlock, AllFail, Attempt;
    assert Pipeline(w)[0] == w.queue[0];
    var c := w.queue[0];
    if c.Submit? {
      AttemptZero(c.candidate);
    }
  }

  lemma TestSearches(w: World, k: nat)
    requires Inv(w) && Enabled(w, Test) && SearchedTo(w, k) && FirstReported(w)
    ensures SearchedTo(Step(w, Test), k + if Fails(w, Test) then 1 else 0) && FirstReported(Step(w, Test))
  {
    hide Consensus.ValidateBlock, AllFail, Attempt, Advance;
    var candidate, v := w.submitted[w.worker.seen], Step(w, Test);
    if Fails(w, Test) {
      NextAttempt(candidate, k);
      OneMoreFails(candidate, k);
    } else {
      assert v.reports == w.reports + [Report(w.worker.seen, Attempt(candidate, k), w.worker.loaded)];
    }
  }

  lemma OtherStepsKeepSearch(w: World, a: Action, k: nat)
    requires Inv(w) && Enabled(w, a) && !a.Test? && !Takes(w, a) && (a.Bump? ==> w.generation < U64_MAX)
    requires SearchedTo(w, k)
    ensures SearchedTo(Step(w, a), k)
  {
    hide Consensus.ValidateBlock, AllFail, Attempt;
  }

  lemma OtherStepsKeepReports(w: World, a: Action)
    requires Inv(w) && Enabled(w, a) && !a.Test? && (a.Bump? ==> w.generation < U64_MAX)
    requires FirstReported(w)
    ensures FirstReported(Step(w, a))
  {
    hide Consensus.ValidateBlock, FirstSolution;
  }

  /** In every interleaving: after `k` failed tests of a candidate the worker stands at the submitted nonce
      plus `k`, modulo 2^32, every nonce before that was tried and failed, and every report is the first
      solution in that order. */
  lemma {:induction false} SearchIsInOrder(actions: seq<Action>, w: World)
    requires Run(actions) == Some(w) && Bumps(actions) <= U64_MAX
    ensures SearchedTo(w, FailedTests(actions)) && FirstReported(w)
  {
    hide Inv, Enabled, Step, SearchedTo, FirstReported, Takes, Fails;
    if actions == [] {
      NothingSearched();
    } else {
      var front, last := actions[..|actions| - 1], actions[|actions| - 1];
      var v := Run(front).value;
      SearchIsInOrder(front, v);
      ReachableInv(front, v);
      if last.Test? {
        TestSearches(v, FailedTests(front));
        TestTakesNothing(v);
      } else {
        OtherStepsKeepReports(v, last);
        if Takes(v, last) {
          TakeStartsSearch(v, last);
        } else {
          OtherStepsKeepSearch(v, last, FailedTests(front));
          OnlyTestsFail(v, last);
        }
      }
    }
  }

  lemma NothingSearched()
    ensures SearchedTo(Start(), 0) && FirstReported(Start())
  {
  }

  lemma TestTakesNothing(w: World)
    ensures !Takes(w, Test)
  {
  }

  lemma OnlyTestsFail(w: World, a: Action)
    requires !a.Test?
    ensures !Fails(w, a)
  {
  }

  /** So the search misses nothing: once 2^32 tests of a candidate have failed, no nonce solves it. */
  lemma ExhaustedMeansUnsolvable(actions: seq<Action>, w: World, nonce: u32)
    requires Run(actions) == Some(w) && Bumps(actions) <= U64_MAX
    requires w.worker.current.Some? && w.worker.phase != Ended && FailedTests(actions) > U32_MAX
    ensures w.worker.seen in w.submitted
    ensures var candidate := w.submitted[w.worker.seen];
            Consensus.ValidateBlock(candidate.(header := candidate.header.(nonce := nonce))).Err?
  {
    hide Consensus.ValidateBlock, Run, Bumps, FailedTests;
    SearchIsInOrder(actions, w);
    var candidate := w.submitted[w.worker.seen];
    var start := candidate.header.nonce;
    var k: nat := if start <= nonce then nonce - start else nonce - start + 0x1_0000_0000;
    assert (start + k) % 0x1_0000_0000 == nonce;
    assert Attempt(candidate, k) == candidate.(header := candidate.header.(nonce := nonce));
  }

  // ---- Watching the queue -----------------------------------------------------------------

  /** Tests that have failed since the worker last looked at its queue. */
  function TestsSinceLook(actions: seq<Action>): nat {
    if actions == [] then 0
    else
      var front, last := actions[..|actions| - 1], actions[|actions| - 1];
      match Run(front)
      case None => 0
      case Some(w) =>
        if last.Receive? || last.Drain? then 0 else TestsSinceLook(front) + if Fails(w, last) then 1 else 0
  }

  /** While it tests, the worker has made at most as many tests as it is past a multiple of 4096. */
  ghost predicate Watches(w: World, t: nat) {
    if w.worker.phase == Checking || w.worker.phase == Testing
    then w.worker.current.Some? && t <= w.worker.current.value.block.header.nonce % 4096
    else t <= 4096
  }

  /** A failed test sends the worker to its queue exactly when the next nonce is a multiple of 4096. */
  lemma FailedTestLooksIff(w: World)
    requires Enabled(w, Test) && Fails(w, Test)
    ensures var v := Step(w, Test);
            && v.worker.current.Some?
            && v.worker.current.value.block.header.nonce % 4096
               == (w.worker.current.value.block.header.nonce + 1) % 4096
            && (v.worker.phase == Draining <==> (w.worker.current.value.block.header.nonce + 1) % 4096 == 0)
            && (v.worker.phase == Draining || v.worker.phase == Checking)
  {
    hide Consensus.ValidateBlock;
    var n: nat := w.worker.current.value.block.header.nonce;
    assert (n + 1) % 0x1_0000_0000 % 4096 == (n + 1) % 4096;
  }

  lemma StepWatches(w: World, a: Action, t: nat)
    requires Enabled(w, a) && Watches(w, t)
    ensures Watches(Step(w, a), if a.Receive? || a.Drain? then 0 else t + if Fails(w, a) then 1 else 0)
  {
    hide Consensus.ValidateBlock;
    if Fails(w, a) {
      FailedTestLooksIff(w);
    }
  }

  /** In every interleaving the worker looks at its queue after at most 4096 failed tests. */
  lemma {:induction false} QueueIsWatched(actions: seq<Action>, w: World)
    requires Run(actions) == Some(w)
    ensures Watches(w, TestsSinceLook(actions)) && TestsSinceLook(actions) <= 4096
  {
    hide Enabled, Step, Fails;
    if actions != [] {
      var front, last := actions[..|actions| - 1], actions[|actions| - 1];
      var v := Run(front).value;
      QueueIsWatched(front, v);
      StepWatches(v, last, TestsSinceLook(front));
    }
  }
}
