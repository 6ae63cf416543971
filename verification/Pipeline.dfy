/**
 * The concurrent scan (internal/scan/walk.go, reorder.go, hash.go) as a transition system: one walker,
 * jobs hashing workers and one consumer over 4*jobs cells, two bounded channels, one rendezvous channel
 * and a cancellable context. A run is any interleaving of the steps below.
 */
module Pipeline {
  import opened Bytes
  import opened Canon
  import opened ScanEntry
  import opened Walk
  import opened RingWalk

  // ---- state -----------------------------------------------------------------------------

  datatype Setup = Setup(cfg: Config, root: Path, tree: Node, jobs: nat)

  /** One reorder-buffer cell: the entry and the counter of its WaitGroup. */
  datatype Cell = Cell(entry: Entry, wg: int)

  /** A visit in its loop over the children. home is the cell whose e.Dev it still reads; pos, kept for the
      specification only, is how many cells had been taken before it. */
  datatype Frame = Frame(dir: Path, kids: Listing, depth: nat, home: nat, pos: nat)

  datatype Walker =
    | Loop
    | Entering(path: Path, node: Node, depth: nat, pdev: u64)
    | Acquiring(path: Path, node: Node, depth: nat, pdev: u64)
    | AcquiringError(path: Path, why: Bytes)
    | Submitting(cell: nat, frame: Frame)
    | Committing(cell: nat, frame: Frame)
    | CommittingError(cell: nat)
    | Stopping | Draining | Closing | Exited

  datatype Worker = Idle | Hashing(cell: nat) | Signalling(cell: nat) | Left

  datatype Consumer = Receiving | Awaiting(cell: nat) | Delivering(cell: nat) | Releasing(cell: nat) | Returned

  /** pruned and barriers list what w.pruned counts and what noteMount was offered. lost, consumed, taken and
      outside are history: cells dropped by a cancelled submit, entries the consumer has waited for, how many
      times a cell was taken, and whether the caller's own context was cancelled. */
  datatype State = State(
    free: seq<nat>,
    ordered: seq<nat>,
    cells: seq<Cell>,
    stack: seq<Frame>,
    walker: Walker,
    walkErr: bool,
    pruned: seq<Path>,
    barriers: seq<Path>,
    workers: seq<Worker>,
    workClosed: bool,
    orderedClosed: bool,
    cancelled: bool,
    consumer: Consumer,
    emitErr: bool,
    emitted: seq<Entry>,
    lost: seq<nat>,
    consumed: seq<Entry>,
    taken: nat,
    outside: bool)

  datatype Step =
    | Cancel
    | Next
    | Enter
    | Acquire
    | AcquireCancelled
    | Submit(worker: nat)
    | SubmitCancelled
    | Commit
    | StopWork
    | WaitWorkers
    | CloseOrdered
    | Hash(worker: nat)
    | Signal(worker: nat)
    | Quit(worker: nat)
    | Receive
    | EndOfStream
    | Await
    | Deliver(fails: bool)
    | Release

  const BLANK_CELL := Cell(BLANK, 0)

  function At(cells: seq<Cell>, id: nat): Cell {
    if id < |cells| then cells[id] else BLANK_CELL
  }

  function Put(cells: seq<Cell>, id: nat, c: Cell): seq<Cell> {
    if id < |cells| then cells[id := c] else cells
  }

  function WorkerAt(ws: seq<Worker>, i: nat): Worker {
    if i < |ws| then ws[i] else Left
  }

  function SetWorker(ws: seq<Worker>, i: nat, w: Worker): seq<Worker> {
    if i < |ws| then ws[i := w] else ws
  }

  predicate AllLeft(ws: seq<Worker>) {
    forall i | 0 <= i < |ws| :: ws[i] == Left
  }

  function Range(n: nat): (r: seq<nat>)
    ensures |r| == n && forall i | 0 <= i < n :: r[i] == i
  {
    seq(n, i => i)
  }

  function Cells(setup: Setup): nat { 4 * setup.jobs }

  function Init(setup: Setup): State {
    State(Range(Cells(setup)), [], seq(Cells(setup), _ => BLANK_CELL), [],
          Entering(setup.root, setup.tree, 0, setup.tree.info.dev), false, [], [],
          seq(setup.jobs, _ => Idle), false, false, false, Receiving, false, [], [], [], 0, false)
  }

  // ---- steps -----------------------------------------------------------------------------

  /** When a step can be taken: a channel operation waits until it can proceed. */
  predicate Enabled(setup: Setup, s: State, step: Step) {
    match step
    case Cancel => !s.outside
    case Next => s.walker.Loop?
    case Enter => s.walker.Entering?
    case Acquire => (s.walker.Acquiring? || s.walker.AcquiringError?) && s.free != []
    case AcquireCancelled => (s.walker.Acquiring? || s.walker.AcquiringError?) && s.cancelled
    case Submit(i) => s.walker.Submitting? && !s.workClosed && WorkerAt(s.workers, i) == Idle
    case SubmitCancelled => s.walker.Submitting? && s.cancelled
    case Commit => (s.walker.Committing? || s.walker.CommittingError?) && !s.orderedClosed && |s.ordered| < Cells(setup)
    case StopWork => s.walker.Stopping?
    case WaitWorkers => s.walker.Draining? && AllLeft(s.workers)
    case CloseOrdered => s.walker.Closing?
    case Hash(i) => WorkerAt(s.workers, i).Hashing?
    case Signal(i) => WorkerAt(s.workers, i).Signalling?
    case Quit(i) => WorkerAt(s.workers, i) == Idle && s.workClosed
    case Receive => s.consumer.Receiving? && s.ordered != []
    case EndOfStream => s.consumer.Receiving? && s.ordered == [] && s.orderedClosed
    case Await => s.consumer.Awaiting? && At(s.cells, s.consumer.cell).wg == 0
    case Deliver(_) => s.consumer.Delivering?
    case Release => s.consumer.Releasing? && |s.free| < Cells(setup)
  }

  function Fail(s: State): State {
    s.(walker := Stopping, walkErr := true, stack := [])
  }

  /** One turn of the walker's loop: the visit on top returns, or goes on to its next child. */
  function NextStack(stack: seq<Frame>): seq<Frame> {
    if stack == [] then []
    else if stack[0].kids.End? then stack[1..]
    else [stack[0].(kids := stack[0].kids.rest)] + stack[1..]
  }

  function NextWalker(cfg: Config, cells: seq<Cell>, stack: seq<Frame>): Walker {
    if stack == [] then Stopping
    else if stack[0].kids.End? then Loop
    else ToChild(cfg, stack[0].dir, stack[0].kids, stack[0].depth, At(cells, stack[0].home).entry.dev)
  }

  function ToChild(cfg: Config, dir: Path, kids: Listing, depth: nat, pdev: u64): Walker
    requires kids.Dirent?
  {
    var path := Join(dir, kids.name);
    if cfg.exclude(path) then Loop
    else
      match kids.stat
      case Gone(why) => AcquiringError(path, why)
      case Present(node) => Entering(path, node, depth, pdev)
  }

  /** The children a visit goes on to once its own entry is committed. */
  function Children(cfg: Config, path: Path, node: Node, depth: nat, pdev: u64): Listing {
    if Enters(cfg, path, node, depth, pdev) then node.kids else End
  }

  /** A cell is taken and filled; what the filesystem says is read while the walker owns it. */
  function FillEntry(cfg: Config, w: Walker): Entry
    requires w.Acquiring? || w.AcquiringError?
  {
    if w.Acquiring? then Draft(cfg, w.path, w.node, w.depth, w.pdev) else ErrorEntry(w.path, w.why)
  }

  /** The directory counted and the mount noted while deciding. */
  function FillTrace(cfg: Config, w: Walker): Trace
    requires w.Acquiring? || w.AcquiringError?
  {
    if w.Acquiring? then Own(cfg, w.path, w.node, w.depth, w.pdev) else Trace([ErrorEntry(w.path, w.why)], [], [])
  }

  function FillWalker(cfg: Config, w: Walker, id: nat, pos: nat): Walker
    requires w.Acquiring? || w.AcquiringError?
  {
    if w.AcquiringError? then CommittingError(id)
    else
      var frame := Frame(w.path, Children(cfg, w.path, w.node, w.depth, w.pdev), w.depth + 1, id, pos);
      if NeedsHash(cfg, FillEntry(cfg, w)) then Submitting(id, frame) else Committing(id, frame)
  }

  function FillCell(cfg: Config, w: Walker, cell: Cell): Cell
    requires w.Acquiring? || w.AcquiringError?
  {
    Cell(FillEntry(cfg, w), cell.wg + if w.Acquiring? && NeedsHash(cfg, FillEntry(cfg, w)) then 1 else 0)
  }

  function Busy(w: Worker): bool { w.Hashing? || w.Signalling? }

  function AddWg(cells: seq<Cell>, id: nat, delta: int): seq<Cell> {
    var c := At(cells, id);
    Put(cells, id, c.(wg := c.wg + delta))
  }

  function HashCell(cfg: Config, s: State, i: nat): State
    requires WorkerAt(s.workers, i).Hashing?
  {
    var id := WorkerAt(s.workers, i).cell;
    var c := At(s.cells, id);
    s.(cells := Put(s.cells, id, c.(entry := Hashed(cfg, c.entry))), workers := SetWorker(s.workers, i, Signalling(id)))
  }

  function Apply(setup: Setup, s: State, step: Step): State
    requires Enabled(setup, s, step)
  {
    match step
    case Cancel => s.(cancelled := true, outside := true)
    case Next => s.(stack := NextStack(s.stack), walker := NextWalker(setup.cfg, s.cells, s.stack))
    case Enter =>
      if s.cancelled then Fail(s)
      else s.(walker := Acquiring(s.walker.path, s.walker.node, s.walker.depth, s.walker.pdev))
    case Acquire =>
      var id := s.free[0];
      var noted := FillTrace(setup.cfg, s.walker);
      s.(free := s.free[1..], walker := FillWalker(setup.cfg, s.walker, id, s.taken), taken := s.taken + 1,
         pruned := s.pruned + noted.pruned, barriers := s.barriers + noted.barriers,
         cells := Put(s.cells, id, FillCell(setup.cfg, s.walker, At(s.cells, id))))
    case AcquireCancelled => Fail(s)
    case Submit(i) =>
      s.(workers := SetWorker(s.workers, i, Hashing(s.walker.cell)),
         walker := Committing(s.walker.cell, s.walker.frame))
    case SubmitCancelled =>
      Fail(s).(cells := AddWg(s.cells, s.walker.cell, -1), lost := s.lost + [s.walker.cell])
    case Commit =>
      s.(ordered := s.ordered + [s.walker.cell], walker := Loop,
         stack := if s.walker.Committing? then [s.walker.frame] + s.stack else s.stack)
    case StopWork => s.(workClosed := true, walker := Draining)
    case WaitWorkers => s.(walker := Closing)
    case CloseOrdered => s.(orderedClosed := true, walker := Exited)
    case Hash(i) => HashCell(setup.cfg, s, i)
    case Signal(i) =>
      s.(cells := AddWg(s.cells, WorkerAt(s.workers, i).cell, -1), workers := SetWorker(s.workers, i, Idle))
    case Quit(i) => s.(workers := SetWorker(s.workers, i, Left))
    case Receive => s.(ordered := s.ordered[1..], consumer := Awaiting(s.ordered[0]))
    case EndOfStream => s.(consumer := Returned)
    case Await => s.(consumer := Delivering(s.consumer.cell))
    case Deliver(fails) =>
      var e := At(s.cells, s.consumer.cell).entry;
      s.(consumer := Releasing(s.consumer.cell), consumed := s.consumed + [e],
         emitted := if s.emitErr then s.emitted else s.emitted + [e],
         emitErr := s.emitErr || fails,
         cancelled := s.cancelled || (fails && !s.emitErr))
    case Release => s.(free := s.free + [s.consumer.cell], consumer := Receiving)
  }

  ghost predicate Legal(setup: Setup, s: State, run: seq<Step>)
    decreases |run|
  {
    run == [] || (Enabled(setup, s, run[0]) && Legal(setup, Apply(setup, s, run[0]), run[1..]))
  }

  function Run(setup: Setup, s: State, run: seq<Step>): State
    requires Legal(setup, s, run)
    decreases |run|
  {
    if run == [] then s else Run(setup, Apply(setup, s, run[0]), run[1..])
  }

  // ---- conservation of cells -------------------------------------------------------------

  function HeldByWalker(w: Walker): seq<nat> {
    if w.Submitting? || w.Committing? || w.CommittingError? then [w.cell] else []
  }

  function HeldByConsumer(c: Consumer): seq<nat> {
    if c.Awaiting? || c.Delivering? || c.Releasing? then [c.cell] else []
  }

  function Occurs(xs: seq<nat>, id: nat): nat { multiset(xs)[id] }

  /** In how many places a cell is. */
  function Places(s: State, id: nat): nat {
    Occurs(s.free, id) + Occurs(s.ordered, id) + Occurs(HeldByWalker(s.walker), id)
    + Occurs(HeldByConsumer(s.consumer), id) + Occurs(s.lost, id)
  }

  function Held(s: State): nat {
    |s.free| + |s.ordered| + |HeldByWalker(s.walker)| + |HeldByConsumer(s.consumer)| + |s.lost|
  }

  /** Every cell is in exactly one place. */
  ghost predicate Conserved(setup: Setup, s: State) {
    && |s.cells| == Cells(setup) == Held(s)
    && forall id: nat :: Places(s, id) == if id < Cells(setup) then 1 else 0
  }

  lemma HeadAndTail(xs: seq<nat>, id: nat)
    requires xs != []
    ensures Occurs(xs, id) == Occurs([xs[0]], id) + Occurs(xs[1..], id)
  {
    assert xs == [xs[0]] + xs[1..];
  }

  lemma Append(xs: seq<nat>, x: nat, id: nat)
    ensures Occurs(xs + [x], id) == Occurs(xs, id) + Occurs([x], id)
  {
  }

  ghost predicate SamePlaces(s: State, t: State, id: nat) {
    Places(t, id) == Places(s, id) && Held(t) == Held(s) && |t.cells| == |s.cells|
  }

  lemma EmptyOccurs(id: nat)
    ensures Occurs([], id) == 0
  {
  }

  lemma NextHoldsNothing(cfg: Config, cells: seq<Cell>, stack: seq<Frame>)
    ensures HeldByWalker(NextWalker(cfg, cells, stack)) == []
  {
    hide At, Join;
  }

  lemma FillHolds(cfg: Config, w: Walker, id: nat, pos: nat)
    requires w.Acquiring? || w.AcquiringError?
    ensures HeldByWalker(FillWalker(cfg, w, id, pos)) == [id]
    ensures FillWalker(cfg, w, id, pos).Submitting? == (w.Acquiring? && NeedsHash(cfg, FillEntry(cfg, w)))
  {
    hide FillEntry, Children, NeedsHash;
  }

  /** No step creates, duplicates or drops a cell; a cancelled submit moves its own to lost. */
  lemma StepKeepsPlaces(setup: Setup, s: State, step: Step, id: nat)
    requires Enabled(setup, s, step)
    ensures SamePlaces(s, Apply(setup, s, step), id)
  {
    hide NextStack, NextWalker, FillWalker, FillTrace, FillCell, Hashed, Cells, Occurs, At, WorkerAt, AllLeft,
        SetWorker;
    EmptyOccurs(id);
    match step
    case Next => NextHoldsNothing(setup.cfg, s.cells, s.stack);
    case Acquire =>
      HeadAndTail(s.free, id);
      FillHolds(setup.cfg, s.walker, s.free[0], s.taken);
    case Receive => HeadAndTail(s.ordered, id);
    case Commit => Append(s.ordered, s.walker.cell, id);
    case Release => Append(s.free, s.consumer.cell, id);
    case SubmitCancelled => Append(s.lost, s.walker.cell, id);
    case _ =>
  }

  lemma StepConserves(setup: Setup, s: State, step: Step)
    requires Enabled(setup, s, step) && Conserved(setup, s)
    ensures Conserved(setup, Apply(setup, s, step))
  {
    hide Apply, Enabled, Held, Places;
    var t := Apply(setup, s, step);
    forall id: nat ensures Places(t, id) == Places(s, id) && Held(t) == Held(s) && |t.cells| == |s.cells| {
      StepKeepsPlaces(setup, s, step, id);
    }
    StepKeepsPlaces(setup, s, step, 0);
  }

  lemma {:induction false} RangeOccurs(n: nat, id: nat)
    ensures Occurs(Range(n), id) == if id < n then 1 else 0
  {
    if n > 0 {
      RangeOccurs(n - 1, id);
      assert Range(n) == Range(n - 1) + [n - 1];
    }
  }

  lemma InitConserves(setup: Setup)
    ensures Conserved(setup, Init(setup))
  {
    var s := Init(setup);
    forall id: nat ensures Places(s, id) == if id < Cells(setup) then 1 else 0 {
      RangeOccurs(Cells(setup), id);
      EmptyOccurs(id);
    }
  }

  // ---- the WaitGroup of a cell -----------------------------------------------------------

  function Claim(w: Worker, id: nat): nat { if Busy(w) && w.cell == id then 1 else 0 }

  function Claimed(ws: seq<Worker>, id: nat): nat {
    if ws == [] then 0 else Claim(ws[0], id) + Claimed(ws[1..], id)
  }

  /** How many workers have a cell, or are about to be given it. */
  function Claims(s: State, id: nat): nat {
    Claimed(s.workers, id) + if s.walker.Submitting? && s.walker.cell == id then 1 else 0
  }

  lemma {:induction false} ClaimedSet(ws: seq<Worker>, i: nat, w: Worker, id: nat)
    requires i < |ws|
    ensures Claimed(SetWorker(ws, i, w), id) == Claimed(ws, id) - Claim(ws[i], id) + Claim(w, id)
  {
    hide Claim;
    if i > 0 {
      ClaimedSet(ws[1..], i - 1, w, id);
      assert SetWorker(ws, i, w)[1..] == SetWorker(ws[1..], i - 1, w);
    } else {
      assert SetWorker(ws, i, w)[1..] == ws[1..];
    }
  }

  lemma {:induction false} ClaimantExists(ws: seq<Worker>, id: nat) returns (i: nat)
    requires Claimed(ws, id) > 0
    ensures i < |ws| && Busy(ws[i]) && ws[i].cell == id
  {
    if Claim(ws[0], id) > 0 {
      i := 0;
    } else {
      i := ClaimantExists(ws[1..], id);
      i := i + 1;
    }
  }

  lemma {:induction false} ClaimantCounts(ws: seq<Worker>, i: nat)
    requires i < |ws| && Busy(ws[i])
    ensures Claimed(ws, ws[i].cell) > 0
  {
    if i > 0 { ClaimantCounts(ws[1..], i - 1); }
  }

  /** The counter of a cell says whether a worker still has it; the consumer does not hold such a cell
      past its wait, and it is not in the pool. */
  predicate Waits(s: State, id: nat) {
    && Claims(s, id) <= 1
    && (id < |s.cells| ==> s.cells[id].wg == Claims(s, id))
    && (Claims(s, id) == 1 ==>
          && id < |s.cells|
          && Occurs(s.free, id) == 0 && Occurs(s.lost, id) == 0
          && !((s.consumer.Delivering? || s.consumer.Releasing?) && s.consumer.cell == id))
  }

  lemma NextSubmitsNothing(cfg: Config, cells: seq<Cell>, stack: seq<Frame>)
    ensures !NextWalker(cfg, cells, stack).Submitting?
  {
    hide At, Join;
  }

  lemma InRange(setup: Setup, s: State, id: nat)
    requires Conserved(setup, s) && Places(s, id) > 0
    ensures id < |s.cells|
  {
    hide Places;
  }

  lemma Single(id: nat, x: nat)
    ensures Occurs([x], id) == if x == id then 1 else 0
  {
  }

  /** A cell in the pool is claimed by nobody. */
  lemma FreeIsUnclaimed(setup: Setup, s: State)
    requires s.free != [] && Conserved(setup, s) && Waits(s, s.free[0])
    ensures var x := s.free[0];
            && x < |s.cells| && Claims(s, x) == 0 && s.cells[x].wg == 0
            && Occurs(s.free[1..], x) == 0 && Occurs(s.lost, x) == 0 && Occurs(s.ordered, x) == 0
            && Occurs(HeldByConsumer(s.consumer), x) == 0
            && !((s.consumer.Delivering? || s.consumer.Releasing?) && s.consumer.cell == x)
  {
    hide Occurs, Claims, Held;
    var x := s.free[0];
    HeadAndTail(s.free, x);
    Single(x, x);
    OnlyOnce(setup, s, x);
    InRange(setup, s, x);
  }

  lemma AcquireFields(setup: Setup, s: State)
    requires Enabled(setup, s, Acquire)
    ensures s.free != []
    ensures var t, x := Apply(setup, s, Acquire), s.free[0];
            && !s.walker.Submitting? && HeldByWalker(t.walker) == [x]
            && t.workers == s.workers && t.free == s.free[1..] && t.lost == s.lost && t.consumer == s.consumer
            && t.cells == Put(s.cells, x, FillCell(setup.cfg, s.walker, At(s.cells, x)))
            && At(t.cells, x).wg
               == (if x < |s.cells| then s.cells[x].wg + (if t.walker.Submitting? then 1 else 0) else 0)
  {
    hide FillEntry;
    FillHolds(setup.cfg, s.walker, s.free[0], s.taken);
  }

  lemma AcquireWaits(setup: Setup, s: State, id: nat)
    requires Enabled(setup, s, Acquire) && Conserved(setup, s) && Waits(s, id)
    ensures Waits(Apply(setup, s, Acquire), id)
  {
    hide Apply, Enabled, FillWalker, FillTrace, FillCell, Claimed, Occurs, Conserved;
    AcquireFields(setup, s);
    if id == s.free[0] {
      FreeIsUnclaimed(setup, s);
    } else {
      HeadAndTail(s.free, id);
      Single(id, s.free[0]);
    }
  }

  lemma OnlyOnce(setup: Setup, s: State, id: nat)
    requires Conserved(setup, s)
    ensures Places(s, id) <= 1
  {
    hide Places;
  }

  lemma WorkerWaits(setup: Setup, s: State, step: Step, id: nat)
    requires step.Submit? || step.Hash? || step.Signal? || step.Quit?
    requires Enabled(setup, s, step) && Conserved(setup, s) && Waits(s, id)
    ensures Waits(Apply(setup, s, step), id)
  {
    hide Hashed, Claimed, NextWalker, NextStack, FillCell, FillWalker, FillTrace, Occurs, Conserved, AllLeft, Cells;
    var i := step.worker;
    match step
    case Submit(_) => ClaimedSet(s.workers, i, Hashing(s.walker.cell), id);
    case Hash(_) => ClaimedSet(s.workers, i, Signalling(s.workers[i].cell), id);
    case Signal(_) => ClaimedSet(s.workers, i, Idle, id);
    case Quit(_) => ClaimedSet(s.workers, i, Left, id);
    case _ =>
  }

  lemma StepWaits(setup: Setup, s: State, step: Step, id: nat)
    requires Enabled(setup, s, step) && Conserved(setup, s) && Waits(s, id)
    ensures Waits(Apply(setup, s, step), id)
  {
    hide NextStack, NextWalker, FillCell, FillWalker, FillTrace, Hashed, Cells, Occurs, WorkerAt, AllLeft, SetWorker,
        Claimed, Held;
    if step.Acquire? {
      AcquireWaits(setup, s, id);
    } else if step.Submit? || step.Hash? || step.Signal? || step.Quit? {
      WorkerWaits(setup, s, step, id);
    } else if step.Next? {
      NextSubmitsNothing(setup.cfg, s.cells, s.stack);
    } else {
      OnlyOnce(setup, s, id);
      if step.Release? { Append(s.free, s.consumer.cell, id); Single(id, s.consumer.cell); }
      if step.SubmitCancelled? { Append(s.lost, s.walker.cell, id); Single(id, s.walker.cell); }
      if step.Await? { Single(s.consumer.cell, s.consumer.cell); InRange(setup, s, s.consumer.cell); }
    }
  }

  // ---- closing and cancelling ------------------------------------------------------------

  predicate Stopped(w: Walker) { w.Stopping? || w.Draining? || w.Closing? || w.Exited? }

  predicate IsPrefix<T(==)>(a: seq<T>, b: seq<T>) { |a| <= |b| && a == b[..|a|] }

  predicate Phase(setup: Setup, s: State) {
    && |s.workers| == setup.jobs > 0
    && (s.workClosed <==> s.walker.Draining? || s.walker.Closing? || s.walker.Exited?)
    && (s.orderedClosed <==> s.walker.Exited?)
    && (Stopped(s.walker) ==> s.stack == [])
    && (s.walker.Closing? || s.walker.Exited? ==> AllLeft(s.workers))
    && (s.consumer.Returned? ==> s.walker.Exited? && s.ordered == [])
  }

  predicate WorkersStay(s: State) {
    !s.workClosed ==> forall i | 0 <= i < |s.workers| :: s.workers[i] != Left
  }

  /** Why a walk stops early, and what the consumer has handed to emit. */
  predicate Blame(s: State) {
    && (s.walkErr ==> Stopped(s.walker) && s.cancelled)
    && |s.lost| <= (if s.walkErr then 1 else 0)
    && (s.cancelled <==> s.outside || s.emitErr)
    && (if s.emitErr then s.emitted != [] && IsPrefix(s.emitted, s.consumed) else s.emitted == s.consumed)
  }

  /** A worker that is about to signal has put the hash in. */
  ghost predicate Summed(cfg: Config, s: State) {
    forall i | 0 <= i < |s.workers| && s.workers[i].Signalling? ::
      var e := At(s.cells, s.workers[i].cell).entry; Hashed(cfg, e) == e
  }

  lemma NextStops(cfg: Config, cells: seq<Cell>, stack: seq<Frame>)
    ensures var w := NextWalker(cfg, cells, stack);
            && (Stopped(w) ==> w.Stopping? && NextStack(stack) == [])
  {
    hide At, Join;
  }

  lemma FillGoesOn(cfg: Config, w: Walker, id: nat, pos: nat)
    requires w.Acquiring? || w.AcquiringError?
    ensures !Stopped(FillWalker(cfg, w, id, pos))
  {
  }

  lemma StepPhase(setup: Setup, s: State, step: Step)
    requires Enabled(setup, s, step) && Phase(setup, s)
    ensures Phase(setup, Apply(setup, s, step))
  {
    hide NextStack, NextWalker, FillCell, FillWalker, FillTrace, HashCell, AllLeft, WorkerAt;
    if step.Next? { NextStops(setup.cfg, s.cells, s.stack); }
    if step.Acquire? { FillGoesOn(setup.cfg, s.walker, s.free[0], s.taken); }
    if s.walker.Closing? || s.walker.Exited? { NobodyWorks(s.workers, step); }
    if step.Hash? { HashKeeps(setup.cfg, s, step.worker); }
  }

  lemma NobodyWorks(ws: seq<Worker>, step: Step)
    requires AllLeft(ws)
    ensures step.Submit? || step.Hash? || step.Signal? || step.Quit? ==> WorkerAt(ws, step.worker) == Left
  {
  }

  lemma HashKeeps(cfg: Config, s: State, i: nat)
    requires WorkerAt(s.workers, i).Hashing?
    ensures var t := HashCell(cfg, s, i);
            t == s.(cells := t.cells, workers := t.workers) && |t.workers| == |s.workers|
  {
  }

  lemma StepWorkersStay(setup: Setup, s: State, step: Step)
    requires Enabled(setup, s, step) && WorkersStay(s)
    ensures WorkersStay(Apply(setup, s, step))
  {
    hide NextStack, NextWalker, FillCell, FillWalker, FillTrace, AllLeft, Hashed;
  }

  lemma StepBlame(setup: Setup, s: State, step: Step)
    requires Enabled(setup, s, step) && Blame(s)
    ensures Blame(Apply(setup, s, step))
  {
    hide NextStack, NextWalker, FillCell, FillWalker, FillTrace, HashCell, AllLeft, WorkerAt, At;
    if step.Next? { NextStops(setup.cfg, s.cells, s.stack); }
    if step.Acquire? { FillGoesOn(setup.cfg, s.walker, s.free[0], s.taken); }
    if step.Hash? { HashKeeps(setup.cfg, s, step.worker); }
  }

  /** Only the cell taken from the pool gets a new entry, and only a worker adds to one. */
  lemma StepSummed(setup: Setup, s: State, step: Step)
    requires Enabled(setup, s, step) && Conserved(setup, s) && Summed(setup.cfg, s)
    requires forall id: nat :: Waits(s, id)
    ensures Summed(setup.cfg, Apply(setup, s, step))
  {
    hide NextStack, NextWalker, FillCell, FillWalker, FillTrace, AllLeft, Hashed, Claims, Conserved, Occurs;
    var t := Apply(setup, s, step);
    forall i | 0 <= i < |t.workers| && t.workers[i].Signalling?
      ensures var e := At(t.cells, t.workers[i].cell).entry; Hashed(setup.cfg, e) == e
    {
      if step.Acquire? {
        FreeIsUnclaimed(setup, s);
        WorkerHasClaim(s, i);
      } else if step.Hash? {
        var id := s.workers[step.worker].cell;
        FinishedKeeps(setup.cfg, At(s.cells, id).entry);
        WorkerHasClaim(s, step.worker);
        assert Waits(s, id);
      }
    }
  }

  lemma WorkerHasClaim(s: State, i: nat)
    requires i < |s.workers| && Busy(s.workers[i])
    ensures Claims(s, s.workers[i].cell) > 0
  {
    hide Claimed;
    ClaimantCounts(s.workers, i);
  }

  ghost predicate Inv(setup: Setup, s: State) {
    && Conserved(setup, s)
    && (forall id: nat :: Waits(s, id))
    && Phase(setup, s) && WorkersStay(s) && Blame(s)
    && Summed(setup.cfg, s)
  }

  lemma {:induction false} IdleClaimsNothing(ws: seq<Worker>, id: nat)
    requires forall i | 0 <= i < |ws| :: ws[i] == Idle
    ensures Claimed(ws, id) == 0
  {
    if ws != [] { IdleClaimsNothing(ws[1..], id); }
  }

  lemma InitInv(setup: Setup)
    requires setup.jobs > 0
    ensures Inv(setup, Init(setup))
  {
    var s := Init(setup);
    InitConserves(setup);
    forall id: nat ensures Waits(s, id) { IdleClaimsNothing(s.workers, id); }
  }

  lemma StepInv(setup: Setup, s: State, step: Step)
    requires Enabled(setup, s, step) && Inv(setup, s)
    ensures Inv(setup, Apply(setup, s, step))
  {
    hide Apply, Enabled, Conserved, Waits, Phase, WorkersStay, Blame, Summed;
    StepConserves(setup, s, step);
    forall id: nat ensures Waits(Apply(setup, s, step), id) { StepWaits(setup, s, step, id); }
    StepPhase(setup, s, step);
    StepWorkersStay(setup, s, step);
    StepBlame(setup, s, step);
    StepSummed(setup, s, step);
  }

  /** Every reachable state satisfies the invariant. */
  lemma {:induction false} RunInv(setup: Setup, s: State, run: seq<Step>)
    requires Legal(setup, s, run) && Inv(setup, s)
    ensures Inv(setup, Run(setup, s, run))
    decreases |run|
  {
    hide Apply, Enabled, Inv;
    if run != [] {
      StepInv(setup, s, run[0]);
      RunInv(setup, Apply(setup, s, run[0]), run[1..]);
    }
  }
}
