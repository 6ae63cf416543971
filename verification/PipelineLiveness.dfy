/** The concurrent scan cannot deadlock, and every run of it ends. */
module PipelineLiveness {
  import opened Bytes
  import opened Canon
  import opened ScanEntry
  import opened Walk
  import opened RingFaithful
  import opened Pipeline
  import opened PipelineSafety

  // ---- somebody can always step ----------------------------------------------------------

  /** Neither the caller's cancellation nor an error returned by emit. */
  predicate Friendly(step: Step) { !step.Cancel? && step != Deliver(true) }

  lemma WorkerMoves(setup: Setup, s: State, i: nat)
    requires i < |s.workers| && Busy(s.workers[i])
    ensures Enabled(setup, s, if s.workers[i].Hashing? then Hash(i) else Signal(i))
  {
  }

  /** A consumer that has something to do can do it, or the worker it waits for can. */
  lemma ConsumerMoves(setup: Setup, s: State) returns (step: Step)
    requires Inv(setup, s) && !s.walker.Submitting?
    requires s.consumer.Awaiting? || s.consumer.Delivering? || s.consumer.Releasing?
        || (s.consumer.Receiving? && s.ordered != [])
    ensures Enabled(setup, s, step) && Friendly(step)
  {
    hide Claimed, Occurs, Conserved, Phase, WorkersStay, Blame, Summed, Cells;
    match s.consumer
    case Receiving => step := Receive;
    case Delivering(_) => step := Deliver(false);
    case Releasing(_) =>
      step := Release;
      ReleaseHasRoom(setup, s);
    case Awaiting(id) =>
      Single(id, id);
      InRange(setup, s, id) by { hide Held; AwaitedIsPlaced(s); }
      assert Waits(s, id);
      if s.cells[id].wg == 0 {
        step := Await;
      } else {
        var i := ClaimantExists(s.workers, id);
        WorkerMoves(setup, s, i);
        step := if s.workers[i].Hashing? then Hash(i) else Signal(i);
      }
  }

  lemma AwaitedIsPlaced(s: State)
    requires s.consumer.Awaiting?
    ensures Places(s, s.consumer.cell) > 0
  {
    hide Occurs;
    Single(s.consumer.cell, s.consumer.cell);
  }

  lemma ReleaseHasRoom(setup: Setup, s: State)
    requires Inv(setup, s) && s.consumer.Releasing?
    ensures |s.free| < Cells(setup)
  {
    hide Waits, Places, WorkersStay, Blame, Summed;
  }

  /** A walker that waits for a cell waits for the consumer. */
  lemma PoolEmptyMeansConsumerBusy(setup: Setup, s: State)
    requires Inv(setup, s) && s.free == [] && HeldByWalker(s.walker) == [] && s.lost == []
    ensures s.ordered != [] || HeldByConsumer(s.consumer) != []
  {
    hide Waits, Places, WorkersStay, Blame, Summed;
  }

  lemma WalkerMoves(setup: Setup, s: State) returns (step: Step)
    requires Inv(setup, s) && !s.walker.Exited? && !s.consumer.Returned?
    ensures Enabled(setup, s, step) && Friendly(step)
  {
    hide Waits, Places, Conserved, Summed, Held, Claims, Cells;
    match s.walker
    case Loop => step := Next;
    case Entering(_, _, _, _) => step := Enter;
    case Acquiring(_, _, _, _) => step := AcquireMoves(setup, s);
    case AcquiringError(_, _) => step := AcquireMoves(setup, s);
    case Submitting(_, _) =>
      if s.workers[0] == Idle {
        step := Submit(0);
      } else {
        WorkerMoves(setup, s, 0);
        step := if s.workers[0].Hashing? then Hash(0) else Signal(0);
      }
    case Committing(_, _) => step := Commit; CommitHasRoom(setup, s);
    case CommittingError(_) => step := Commit; CommitHasRoom(setup, s);
    case Stopping => step := StopWork;
    case Closing => step := CloseOrdered;
    case Draining =>
      if i: nat :| i < |s.workers| && s.workers[i] != Left {
        if s.workers[i] == Idle {
          step := Quit(i);
        } else {
          WorkerMoves(setup, s, i);
          step := if s.workers[i].Hashing? then Hash(i) else Signal(i);
        }
      } else {
        step := WaitWorkers;
      }
  }

  lemma CommitHasRoom(setup: Setup, s: State)
    requires Inv(setup, s) && HeldByWalker(s.walker) != []
    ensures |s.ordered| < Cells(setup)
  {
    hide Waits, Places, WorkersStay, Blame, Summed;
  }

  lemma AcquireMoves(setup: Setup, s: State) returns (step: Step)
    requires Inv(setup, s) && (s.walker.Acquiring? || s.walker.AcquiringError?) && !s.consumer.Returned?
    ensures Enabled(setup, s, step) && Friendly(step)
  {
    if s.free != [] {
      step := Acquire;
    } else {
      assert s.lost == [] by { hide Conserved, Waits, Summed; }
      PoolEmptyMeansConsumerBusy(setup, s);
      hide Inv;
      step := ConsumerMoves(setup, s);
    }
  }

  /** In every reachable state in which Walk has not returned, a step other than cancelling can be taken. */
  lemma NeverStuck(setup: Setup, s: State) returns (step: Step)
    requires Inv(setup, s) && !s.consumer.Returned?
    ensures Enabled(setup, s, step) && Friendly(step)
  {
    hide Conserved, Waits, WorkersStay, Blame, Summed;
    if !s.walker.Exited? {
      hide Inv;
      step := WalkerMoves(setup, s);
    } else if s.consumer.Receiving? && s.ordered == [] {
      step := EndOfStream;
    } else {
      hide Inv;
      step := ConsumerMoves(setup, s);
    }
  }

  // ---- every step is progress ------------------------------------------------------------

  function StackCost(stack: seq<Frame>): nat {
    if stack == [] then 0 else FrameCost(stack[0]) + StackCost(stack[1..])
  }

  function FrameCost(f: Frame): nat { 1 + 12 * ListSize(f.kids) }

  function WalkerCost(w: Walker): nat {
    match w
    case Loop => 5
    case Entering(_, node, _, _) => 5 + 12 * NodeSize(node)
    case Acquiring(_, node, _, _) => 4 + 12 * NodeSize(node)
    case AcquiringError(_, _) => 16
    case Submitting(_, f) => 15 + FrameCost(f)
    case Committing(_, f) => 10 + FrameCost(f)
    case CommittingError(_) => 10
    case Stopping => 3
    case Draining => 2
    case Closing => 1
    case Exited => 0
  }

  function WorkerCost(w: Worker): nat {
    match w
    case Hashing(_) => 3
    case Signalling(_) => 2
    case Idle => 1
    case Left => 0
  }

  function WorkersCost(ws: seq<Worker>): nat {
    if ws == [] then 0 else WorkerCost(ws[0]) + WorkersCost(ws[1..])
  }

  function ConsumerCost(c: Consumer): nat {
    match c
    case Awaiting(_) => 4
    case Delivering(_) => 3
    case Releasing(_) => 2
    case Receiving => 1
    case Returned => 0
  }

  /** Entries still to walk, and the stages each cell still has before it. */
  function Measure(s: State): nat {
    StackCost(s.stack) + WalkerCost(s.walker) + WorkersCost(s.workers) + 4 * |s.ordered| + ConsumerCost(s.consumer)
    + if s.outside then 0 else 1
  }

  lemma {:induction false} WorkersCostSet(ws: seq<Worker>, i: nat, w: Worker)
    requires i < |ws|
    ensures WorkersCost(SetWorker(ws, i, w)) == WorkersCost(ws) - WorkerCost(ws[i]) + WorkerCost(w)
  {
    hide WorkerCost;
    if i > 0 {
      WorkersCostSet(ws[1..], i - 1, w);
      assert SetWorker(ws, i, w)[1..] == SetWorker(ws[1..], i - 1, w);
    } else {
      assert SetWorker(ws, i, w)[1..] == ws[1..];
    }
  }

  lemma NextCosts(cfg: Config, cells: seq<Cell>, stack: seq<Frame>)
    ensures StackCost(NextStack(stack)) + WalkerCost(NextWalker(cfg, cells, stack)) < StackCost(stack) + 5
  {
    hide At, Join;
    if stack != [] && stack[0].kids.Dirent? {
      assert NextStack(stack)[1..] == stack[1..];
    }
  }

  lemma FillCosts(cfg: Config, w: Walker, id: nat, pos: nat)
    requires w.Acquiring? || w.AcquiringError?
    ensures WalkerCost(FillWalker(cfg, w, id, pos)) < WalkerCost(w)
  {
    hide FillEntry, NeedsHash, Enters;
  }

  lemma WorkerStepCosts(setup: Setup, s: State, step: Step)
    requires Enabled(setup, s, step) && (step.Submit? || step.Hash? || step.Signal? || step.Quit?)
    ensures Measure(Apply(setup, s, step)) < Measure(s)
  {
    hide Hashed, FrameCost, StackCost, WorkersCost, At, Put, NextStack, NextWalker, FillCell, FillWalker, FillTrace,
        ConsumerCost;
    var i := step.worker;
    match step
    case Submit(_) => WorkersCostSet(s.workers, i, Hashing(s.walker.cell));
    case Hash(_) => WorkersCostSet(s.workers, i, Signalling(s.workers[i].cell));
    case Signal(_) => WorkersCostSet(s.workers, i, Idle);
    case Quit(_) => WorkersCostSet(s.workers, i, Left);
    case _ =>
  }

  lemma CommitCosts(setup: Setup, s: State)
    requires Enabled(setup, s, Commit)
    ensures Measure(Apply(setup, s, Commit)) < Measure(s)
  {
    hide FrameCost, WorkersCost, ConsumerCost;
    var t := Apply(setup, s, Commit);
    if s.walker.Committing? { assert t.stack[1..] == s.stack; }
  }

  lemma StepCosts(setup: Setup, s: State, step: Step)
    requires Enabled(setup, s, step)
    ensures Measure(Apply(setup, s, step)) < Measure(s)
  {
    hide NextStack, NextWalker, FillCell, FillWalker, FillTrace, FrameCost, WorkersCost, StackCost, HashCell, At, Put,
        WorkerAt, AllLeft;
    if step.Submit? || step.Hash? || step.Signal? || step.Quit? {
      WorkerStepCosts(setup, s, step);
    } else if step.Commit? {
      CommitCosts(setup, s);
    } else {
      assert StackCost([]) == 0 by { EmptyStackCost(); }
      if step.Next? { NextCosts(setup.cfg, s.cells, s.stack); }
      if step.Acquire? { FillCosts(setup.cfg, s.walker, s.free[0], s.taken); }
    }
  }

  lemma EmptyStackCost()
    ensures StackCost([]) == 0
  {
  }

  /** The number of steps of any run, whatever the schedule, is at most linear in the size of the tree. */
  lemma {:induction false} RunsEnd(setup: Setup, s: State, run: seq<Step>)
    requires Legal(setup, s, run)
    ensures |run| + Measure(Run(setup, s, run)) <= Measure(s)
    decreases |run|
  {
    hide Apply, Enabled, Measure;
    if run != [] {
      StepCosts(setup, s, run[0]);
      RunsEnd(setup, Apply(setup, s, run[0]), run[1..]);
    }
  }

  lemma {:induction false} IdleCosts(ws: seq<Worker>)
    requires forall i | 0 <= i < |ws| :: ws[i] == Idle
    ensures WorkersCost(ws) == |ws|
  {
    if ws != [] { IdleCosts(ws[1..]); }
  }

  lemma RunLengthBound(setup: Setup, run: seq<Step>)
    requires Legal(setup, Init(setup), run)
    ensures |run| <= 12 * NodeSize(setup.tree) + setup.jobs + 7
  {
    hide Legal, Run;
    RunsEnd(setup, Init(setup), run);
    IdleCosts(Init(setup).workers);
  }

  /** A run that cannot go on has returned; and one that has not returned can be continued until it has. */
  lemma MaximalRunsReturn(setup: Setup, run: seq<Step>)
    requires setup.jobs > 0 && Legal(setup, Init(setup), run)
    requires forall step: Step :: Enabled(setup, Run(setup, Init(setup), run), step) ==> step.Cancel?
    ensures Run(setup, Init(setup), run).consumer.Returned?
  {
    hide Init, Legal, Run, Inv, Enabled;
    InitInv(setup);
    RunInv(setup, Init(setup), run);
    if !Run(setup, Init(setup), run).consumer.Returned? {
      var step := NeverStuck(setup, Run(setup, Init(setup), run));
    }
  }

  lemma {:induction false} CanFinish(setup: Setup, s: State) returns (run: seq<Step>)
    requires Inv(setup, s)
    ensures Legal(setup, s, run) && Run(setup, s, run).consumer.Returned?
    ensures forall i | 0 <= i < |run| :: Friendly(run[i])
    decreases Measure(s)
  {
    hide Apply, Enabled, Inv, Measure;
    if s.consumer.Returned? {
      run := [];
    } else {
      var step := NeverStuck(setup, s);
      StepInv(setup, s, step);
      StepCosts(setup, s, step);
      var later := CanFinish(setup, Apply(setup, s, step));
      run := [step] + later;
      assert run[1..] == later;
    }
  }

  /** A run in which nobody cancels and emit never fails has no error to return. */
  lemma {:induction false} FriendlyRun(setup: Setup, s: State, run: seq<Step>)
    requires Legal(setup, s, run) && forall i | 0 <= i < |run| :: Friendly(run[i])
    requires !s.outside && !s.emitErr
    ensures !Run(setup, s, run).outside && !Run(setup, s, run).emitErr
    decreases |run|
  {
    hide Apply, Enabled;
    if run != [] {
      assert Friendly(run[0]);
      FriendlyStep(setup, s, run[0]);
      FriendlyRun(setup, Apply(setup, s, run[0]), run[1..]);
    }
  }

  lemma FriendlyStep(setup: Setup, s: State, step: Step)
    requires Enabled(setup, s, step) && Friendly(step) && !s.outside && !s.emitErr
    ensures !Apply(setup, s, step).outside && !Apply(setup, s, step).emitErr
  {
    hide NextStack, NextWalker, FillCell, FillWalker, FillTrace, HashCell, AllLeft, At, Put, WorkerAt, SetWorker;
    if step.Hash? { HashKeeps(setup.cfg, s, step.worker); }
  }

  /** For every setup there is a run in which Walk returns nil. */
  lemma SomeRunSucceeds(setup: Setup) returns (run: seq<Step>)
    requires setup.jobs > 0
    ensures Legal(setup, Init(setup), run)
    ensures var s := Run(setup, Init(setup), run); s.consumer.Returned? && WalkResult(s) == Nil
  {
    var s := Init(setup);
    assert !s.outside && !s.emitErr;
    hide Init, Apply, Enabled, Legal, Run, Conserved, Waits, Phase, WorkersStay, Summed;
    InitInv(setup);
    run := CanFinish(setup, s);
    FriendlyRun(setup, s, run);
    RunInv(setup, s, run);
  }

  // ---- whatever the number of jobs -------------------------------------------------------

  /** All the runs that return nil, with however many jobs, emit the same exactly when the late read changes no
      decision that shows for any number of jobs. */
  lemma EveryJobsSame(setup: Setup)
    requires WellFormed(setup.tree)
    ensures (forall j, k, run, run', es, fs | j > 0 && k > 0 && Yields(setup.(jobs := j), run, es)
                                              && Yields(setup.(jobs := k), run', fs) :: es == fs)
       <==> (forall j: nat | j > 0 :: DevicesAgree(setup.(jobs := j)))
  {
    hide Yields, DevicesAgree, Scan, WellFormed;
    if forall j: nat | j > 0 :: DevicesAgree(setup.(jobs := j)) {
      forall j, k, run, run', es, fs | j > 0 && k > 0 && Yields(setup.(jobs := j), run, es)
                                       && Yields(setup.(jobs := k), run', fs)
        ensures es == fs
      {
        YieldsScan(setup.(jobs := j), run, es);
        YieldsScan(setup.(jobs := k), run', fs);
      }
    }
    if forall j, k, run, run', es, fs | j > 0 && k > 0 && Yields(setup.(jobs := j), run, es)
                                        && Yields(setup.(jobs := k), run', fs) :: es == fs {
      var k := |Scan(setup.cfg, setup.root, setup.tree)| + 1;
      assert DevicesAgree(setup.(jobs := k)) by { EnoughCells(setup.(jobs := k)); }
      forall j: nat | j > 0 ensures DevicesAgree(setup.(jobs := j)) {
        var run, es := SomeYields(setup.(jobs := j));
        var run', fs := SomeYields(setup.(jobs := k));
        YieldsScan(setup.(jobs := j), run, es);
        YieldsScan(setup.(jobs := k), run', fs);
      }
    }
  }

  lemma SomeYields(setup: Setup) returns (run: seq<Step>, es: seq<Entry>)
    requires setup.jobs > 0
    ensures Yields(setup, run, es)
  {
    hide Init, Legal, Run;
    run := SomeRunSucceeds(setup);
    es := Run(setup, Init(setup), run).emitted;
  }

  lemma YieldsScan(setup: Setup, run: seq<Step>, es: seq<Entry>)
    requires setup.jobs > 0 && WellFormed(setup.tree) && Yields(setup, run, es)
    ensures es == Scan(setup.cfg, setup.root, setup.tree) <==> DevicesAgree(setup)
  {
    hide Init, Legal, Run, WalkResult, DevicesAgree, Scan, WellFormed;
    WalkIsSequential(setup, run);
  }

  lemma EnoughCells(setup: Setup)
    requires setup.jobs > |Scan(setup.cfg, setup.root, setup.tree)|
    ensures DevicesAgree(setup)
  {
    hide FaithfulWalk, Scan;
    WhenFaithful(setup.cfg, Cells(setup), setup.root, setup.tree);
  }
}
