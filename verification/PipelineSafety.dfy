/** Every run of the concurrent scan delivers a prefix of the walk with recycled cells, and the whole of it when
    Walk returns nil; that walk is the sequential one exactly when no decision that matters is changed by it. */
module PipelineSafety {
  import opened Bytes
  import opened Canon
  import opened ScanEntry
  import opened Walk
  import opened RingWalk
  import opened RingAgree
  import opened RingFaithful
  import opened Pipeline

  // ---- what the consumer holds -----------------------------------------------------------

  /** The entry a cell will hold once its worker, if any, is done with it. */
  function Final(cfg: Config, c: Cell): Entry {
    if c.wg > 0 then Hashed(cfg, c.entry) else c.entry
  }

  function Finals(cfg: Config, cells: seq<Cell>, ids: seq<nat>): (r: seq<Entry>)
    ensures |r| == |ids|
  {
    seq(|ids|, i requires 0 <= i < |ids| => Final(cfg, At(cells, ids[i])))
  }

  function Arriving(c: Consumer): seq<nat> {
    if c.Awaiting? || c.Delivering? then [c.cell] else []
  }

  function InFlight(s: State): seq<nat> { Arriving(s.consumer) + s.ordered }

  /** Everything committed so far, in commit order, as the consumer has seen it or will see it. */
  function Past(cfg: Config, s: State): seq<Entry> {
    s.consumed + Finals(cfg, s.cells, InFlight(s))
  }

  lemma FinalsSame(cfg: Config, cells: seq<Cell>, cells': seq<Cell>, ids: seq<nat>)
    requires forall id | id in ids :: Final(cfg, At(cells', id)) == Final(cfg, At(cells, id))
    ensures Finals(cfg, cells', ids) == Finals(cfg, cells, ids)
  {
    hide At, Final;
    forall i | 0 <= i < |ids| ensures Final(cfg, At(cells', ids[i])) == Final(cfg, At(cells, ids[i])) {
      assert ids[i] in ids;
    }
  }

  lemma FinalsConcat(cfg: Config, cells: seq<Cell>, a: seq<nat>, b: seq<nat>)
    ensures Finals(cfg, cells, a + b) == Finals(cfg, cells, a) + Finals(cfg, cells, b)
  {
    hide At, Final;
  }

  lemma MemberOccurs(xs: seq<nat>, id: nat)
    ensures id in xs <==> Occurs(xs, id) > 0
  {
  }

  /** The cell the walker holds is not one the consumer will read. */
  lemma HeldNotInFlight(setup: Setup, s: State)
    requires Conserved(setup, s) && HeldByWalker(s.walker) != []
    ensures s.walker.cell !in InFlight(s) && s.walker.cell < |s.cells|
  {
    hide Occurs;
    var id := s.walker.cell;
    OnlyOnce(setup, s, id);
    Single(id, id);
    MemberOccurs(s.ordered, id);
    InRange(setup, s, id);
    if Arriving(s.consumer) != [] { Single(id, s.consumer.cell); }
  }

  lemma FreeNotInFlight(setup: Setup, s: State)
    requires Conserved(setup, s) && s.free != [] && Waits(s, s.free[0])
    ensures s.free[0] !in InFlight(s)
  {
    hide Occurs, Waits, Conserved;
    var id := s.free[0];
    FreeIsUnclaimed(setup, s);
    MemberOccurs(s.ordered, id);
    if Arriving(s.consumer) != [] { Single(id, s.consumer.cell); }
  }

  lemma HashKeepsFinals(setup: Setup, s: State, i: nat, ids: seq<nat>)
    requires Enabled(setup, s, Hash(i)) && Inv(setup, s)
    ensures Finals(setup.cfg, Apply(setup, s, Hash(i)).cells, ids) == Finals(setup.cfg, s.cells, ids)
  {
    hide Hashed, Finals, Conserved, Phase, WorkersStay, Blame, Claims;
    var id := s.workers[i].cell;
    WorkerHasClaim(s, i);
    assert Waits(s, id);
    FinishedKeeps(setup.cfg, At(s.cells, id).entry);
    FinalsSame(setup.cfg, s.cells, Apply(setup, s, Hash(i)).cells, ids);
  }

  lemma SignalKeepsFinals(setup: Setup, s: State, i: nat, ids: seq<nat>)
    requires Enabled(setup, s, Signal(i)) && Inv(setup, s)
    ensures Finals(setup.cfg, Apply(setup, s, Signal(i)).cells, ids) == Finals(setup.cfg, s.cells, ids)
  {
    hide Hashed, Finals, Conserved, Phase, WorkersStay, Blame, Claims;
    var id := s.workers[i].cell;
    WorkerHasClaim(s, i);
    assert Waits(s, id);
    FinalsSame(setup.cfg, s.cells, Apply(setup, s, Signal(i)).cells, ids);
  }

  lemma PutElsewhere(cfg: Config, cells: seq<Cell>, x: nat, c: Cell, ids: seq<nat>)
    requires x !in ids
    ensures Finals(cfg, Put(cells, x, c), ids) == Finals(cfg, cells, ids)
  {
    hide Final, Finals;
    FinalsSame(cfg, cells, Put(cells, x, c), ids);
  }

  /** What no step changes for the cells in flight. */
  lemma CellsStep(setup: Setup, s: State, step: Step)
    requires Enabled(setup, s, step) && Inv(setup, s)
    ensures Finals(setup.cfg, Apply(setup, s, step).cells, InFlight(s)) == Finals(setup.cfg, s.cells, InFlight(s))
  {
    hide NextStack, NextWalker, FillCell, FillWalker, FillTrace, HashCell, AllLeft, At, Finals, Conserved, Waits, Phase,
        WorkersStay, Blame, Summed, InFlight, Put;
    match step
    case Acquire =>
      FreeNotInFlight(setup, s);
      PutElsewhere(setup.cfg, s.cells, s.free[0], FillCell(setup.cfg, s.walker, At(s.cells, s.free[0])),
          InFlight(s));
    case SubmitCancelled =>
      HeldNotInFlight(setup, s);
      var c := At(s.cells, s.walker.cell);
      PutElsewhere(setup.cfg, s.cells, s.walker.cell, c.(wg := c.wg - 1), InFlight(s));
    case Hash(i) => HashKeepsFinals(setup, s, i, InFlight(s));
    case Signal(i) => SignalKeepsFinals(setup, s, i, InFlight(s));
    case _ =>
  }

  /** What is past stays as it is; a commit puts the walker's cell at its end. */
  lemma PastStep(setup: Setup, s: State, step: Step)
    requires Enabled(setup, s, step) && Inv(setup, s)
    ensures Past(setup.cfg, Apply(setup, s, step))
            == Past(setup.cfg, s) + if step.Commit? then Finals(setup.cfg, s.cells, HeldByWalker(s.walker)) else []
  {
    hide NextStack, NextWalker, FillCell, FillWalker, FillTrace, AllLeft, At, Finals, Conserved, Phase, WorkersStay,
        Blame, Summed, Put, WorkerAt, Hashed;
    CellsStep(setup, s, step);
    match step
    case Commit => FinalsConcat(setup.cfg, s.cells, InFlight(s), [s.walker.cell]);
      assert InFlight(Apply(setup, s, step)) == InFlight(s) + [s.walker.cell];
    case Receive => assert InFlight(Apply(setup, s, step)) == InFlight(s);
    case Deliver(_) => DeliverPast(setup, s);
      assert InFlight(Apply(setup, s, step)) == s.ordered;
    case _ =>
  }

  /** The consumer hands over an entry no worker will touch again. */
  lemma ConsumerSeesFinished(setup: Setup, s: State)
    requires Inv(setup, s) && (s.consumer.Delivering? || s.consumer.Releasing?)
    ensures s.consumer.cell < |s.cells| && s.cells[s.consumer.cell].wg == 0
    ensures forall i | 0 <= i < |s.workers| && Busy(s.workers[i]) :: s.workers[i].cell != s.consumer.cell
  {
    hide Occurs, Phase, WorkersStay, Blame, Summed, Claims;
    var id := s.consumer.cell;
    Single(id, id);
    InRange(setup, s, id);
    assert Waits(s, id);
    forall i | 0 <= i < |s.workers| && Busy(s.workers[i]) ensures s.workers[i].cell != id { WorkerHasClaim(s, i); }
  }

  lemma DeliverPast(setup: Setup, s: State)
    requires Inv(setup, s) && s.consumer.Delivering?
    ensures (s.consumed + [At(s.cells, s.consumer.cell).entry]) + Finals(setup.cfg, s.cells, s.ordered)
        == Past(setup.cfg, s)
  {
    hide Inv, Finals;
    ConsumerSeesFinished(setup, s);
    FinalsConcat(setup.cfg, s.cells, [s.consumer.cell], s.ordered);
    assert Finals(setup.cfg, s.cells, [s.consumer.cell])
        == [At(s.cells, s.consumer.cell).entry] by { OneFinal(setup.cfg, s.cells, s.consumer.cell); }
  }

  lemma OneFinal(cfg: Config, cells: seq<Cell>, id: nat)
    ensures Finals(cfg, cells, [id]) == [Final(cfg, At(cells, id))]
  {
  }

  /** In every run, at every moment: each cell is in one place, and all 4*jobs of them are free, ordered or
      held, but for at most one that a cancelled submit lost. */
  lemma CellConservation(setup: Setup, run: seq<Step>)
    requires setup.jobs > 0 && Legal(setup, Init(setup), run)
    ensures var s := Run(setup, Init(setup), run);
            && |s.free| + |s.ordered| + |HeldByWalker(s.walker)| + |HeldByConsumer(s.consumer)| + |s.lost|
               == 4 * setup.jobs
            && |s.lost| <= 1 && (s.lost != [] ==> s.walkErr && s.cancelled)
            && forall id: nat :: Places(s, id) == if id < 4 * setup.jobs then 1 else 0
  {
    hide Init, Legal, Run, Waits, Phase, WorkersStay, Summed, Places, Occurs;
    InitInv(setup);
    RunInv(setup, Init(setup), run);
  }

  /** Neither channel of the ring ever blocks its sender. */
  lemma CommitAndReleaseNeverBlock(setup: Setup, s: State)
    requires Inv(setup, s)
    ensures s.walker.Committing? || s.walker.CommittingError? ==> Enabled(setup, s, Commit)
    ensures s.consumer.Releasing? ==> Enabled(setup, s, Release)
  {
    hide Waits, Places, WorkersStay, Blame, Summed;
  }

  // ---- the cells go round in turn --------------------------------------------------------

  /** From the pool through the consumer and the sequence to the walker: the cells in the order they will be
      taken next. */
  function Queue(s: State): seq<nat> {
    Line(s.free, HeldByConsumer(s.consumer), s.ordered, HeldByWalker(s.walker))
  }

  function Line<T>(a: seq<T>, b: seq<T>, c: seq<T>, d: seq<T>): seq<T> { a + b + c + d }

  /** Moving the head of one part to the end of the part before it. */
  lemma LineMoves<T>(a: seq<T>, c: seq<T>, x: T, more: seq<T>)
    ensures Line(a, [], [x] + c, more) == Line(a, [x], c, more)
    ensures Line(a, [x], c, more) == Line(a + [x], [], c, more)
  {
  }

  lemma LineCommits<T>(a: seq<T>, b: seq<T>, c: seq<T>, x: T)
    ensures Line(a, b, c + [x], []) == Line(a, b, c, [x])
  {
  }

  ghost predicate InTurn(setup: Setup, s: State) {
    |Queue(s)| == Cells(setup) && forall i | 0 <= i < |Queue(s)| :: Queue(s)[i] == (s.taken + i) % Cells(setup)
  }

  lemma QueueKept(setup: Setup, s: State, step: Step)
    requires Enabled(setup, s, step) && !step.Acquire? && !step.SubmitCancelled?
    ensures Queue(Apply(setup, s, step)) == Queue(s) && Apply(setup, s, step).taken == s.taken
  {
    hide NextStack, NextWalker, FillCell, FillWalker, FillTrace, HashCell, AllLeft, At, Put, WorkerAt, SetWorker, Cells,
         Line;
    match step
    case Next => NextHoldsNothing(setup.cfg, s.cells, s.stack);
    case Hash(i) => HashFields(setup.cfg, s, i);
    case Commit => LineCommits(s.free, HeldByConsumer(s.consumer), s.ordered, s.walker.cell);
    case Receive =>
      LineMoves(s.free, s.ordered[1..], s.ordered[0], HeldByWalker(s.walker));
      assert s.ordered == [s.ordered[0]] + s.ordered[1..];
    case Release => LineMoves(s.free, s.ordered, s.consumer.cell, HeldByWalker(s.walker));
    case _ =>
  }

  lemma HashFields(cfg: Config, s: State, i: nat)
    requires WorkerAt(s.workers, i).Hashing?
    ensures var t := HashCell(cfg, s, i); t == s.(cells := t.cells, workers := t.workers)
  {
  }

  lemma QueueTurns(setup: Setup, s: State)
    requires Enabled(setup, s, Acquire)
    ensures s.free != [] && Apply(setup, s, Acquire).taken == s.taken + 1
    ensures Queue(s) != [] && Queue(s)[0] == s.free[0]
    ensures Queue(Apply(setup, s, Acquire)) == Queue(s)[1..] + [s.free[0]]
  {
    hide FillCell, FillWalker, FillTrace, At, Put;
    FillHolds(setup.cfg, s.walker, s.free[0], s.taken);
  }

  lemma Times(k: int, m: nat)
    requires k >= 1
    ensures k * m >= m
  {
  }

  lemma ModUnique(x: nat, m: nat, q: int, r: int)
    requires 0 <= r < m && x == q * m + r
    ensures x % m == r
  {
    var p, s := x / m, x % m;
    assert x == p * m + s;
    assert (q - p) * m == s - r;
    if q > p { Times(q - p, m); }
    if p > q { Times(p - q, m); }
  }

  lemma AroundOnce(n: nat, m: nat)
    requires m > 0
    ensures (n + m) % m == n % m
  {
    assert n + m == (n / m + 1) * m + n % m;
    ModUnique(n + m, m, n / m + 1, n % m);
  }

  lemma StepInTurn(setup: Setup, s: State, step: Step)
    requires Enabled(setup, s, step) && !step.SubmitCancelled? && InTurn(setup, s)
    ensures InTurn(setup, Apply(setup, s, step))
  {
    hide Apply, Enabled, Cells, Queue;
    if step.Acquire? {
      QueueTurns(setup, s);
      var n := Cells(setup);
      assert Queue(s)[0] == (s.taken + 0) % n;
      AroundOnce(s.taken, n);
    } else {
      QueueKept(setup, s, step);
    }
  }

  // ---- what has been taken so far --------------------------------------------------------

  /** Every entry a cell was taken for, the one the walker holds included. */
  function Sofar(cfg: Config, s: State): seq<Entry> {
    Past(cfg, s) + Finals(cfg, s.cells, HeldByWalker(s.walker))
  }

  lemma NoFinals(cfg: Config, cells: seq<Cell>)
    ensures Finals(cfg, cells, []) == [] && forall es: seq<Entry> :: [] + es == es && es + [] == es
  {
  }

  lemma FillFinal(cfg: Config, w: Walker, cell: Cell)
    requires (w.Acquiring? || w.AcquiringError?) && cell.wg == 0
    ensures FillTrace(cfg, w).log == [Final(cfg, FillCell(cfg, w, cell))]
  {
    hide Hashed, Draft, Enters;
  }

  lemma AcquireSofar(setup: Setup, s: State)
    requires Enabled(setup, s, Acquire) && Inv(setup, s)
    ensures Sofar(setup.cfg, Apply(setup, s, Acquire)) == Sofar(setup.cfg, s) + FillTrace(setup.cfg, s.walker).log
  {
    hide FillEntry, FillWalker, FillTrace, Conserved, Waits, Finals, Occurs, Phase, WorkersStay, Blame, Summed, Past;
    var t, x := Apply(setup, s, Acquire), s.free[0];
    PastStep(setup, s, Acquire);
    FreeIsUnclaimed(setup, s);
    FillHolds(setup.cfg, s.walker, x, s.taken);
    FillFinal(setup.cfg, s.walker, s.cells[x]);
    OneFinal(setup.cfg, t.cells, x);
    NoFinals(setup.cfg, s.cells);
    assert t.cells[x] == FillCell(setup.cfg, s.walker, s.cells[x]);
    assert HeldByWalker(s.walker) == [] && HeldByWalker(t.walker) == [x];
    hide Apply, Enabled, FillCell, Final, HeldByWalker;
  }

  /** Taking a cell adds its entry; nothing else does, unless the walker gives up. */
  lemma SofarStep(setup: Setup, s: State, step: Step)
    requires Enabled(setup, s, step) && Inv(setup, s)
    ensures var t := Apply(setup, s, step);
            t.walkErr
            || Sofar(setup.cfg, t)
               == Sofar(setup.cfg, s) + if step.Acquire? then FillTrace(setup.cfg, s.walker).log else []
  {
    hide NextStack, NextWalker, FillCell, FillWalker, FillTrace, AllLeft, At, Finals, Conserved, WorkersStay, Waits,
         Blame, Summed, Put, WorkerAt, HashCell, Past, Phase;
    var t := Apply(setup, s, step);
    PastStep(setup, s, step);
    NoFinals(setup.cfg, s.cells);
    NoFinals(setup.cfg, t.cells);
    match step
    case Acquire => AcquireSofar(setup, s);
    case Next => NextHoldsNothing(setup.cfg, s.cells, s.stack);
    case Hash(i) =>
      HashKeepsFinals(setup, s, i, HeldByWalker(s.walker));
      HashFields(setup.cfg, s, i);
    case Signal(i) => SignalKeepsFinals(setup, s, i, HeldByWalker(s.walker));
    case _ =>
  }

  /** What a cell's device is, by the entries it was taken for. */
  ghost predicate Remembers(setup: Setup, s: State)
    requires setup.jobs > 0
  {
    && |Sofar(setup.cfg, s)| == s.taken
    && forall c | 0 <= c < Cells(setup) :: At(s.cells, c).entry.dev == DeviceOf(Cells(setup), Sofar(setup.cfg, s), c)
  }

  lemma PutDev(cells: seq<Cell>, x: nat, c: Cell, id: nat)
    ensures At(Put(cells, x, c), id) == if id == x && id < |cells| then c else At(cells, id)
  {
  }

  lemma HashedKeepsDev(cfg: Config, e: Entry)
    ensures Hashed(cfg, e).dev == e.dev
  {
  }

  /** A cell's device changes only when the cell is filled again. */
  lemma DevStep(setup: Setup, s: State, step: Step, id: nat)
    requires Enabled(setup, s, step)
    ensures At(Apply(setup, s, step).cells, id).entry.dev
         == if step.Acquire? && id == s.free[0] && id < |s.cells| then FillEntry(setup.cfg, s.walker).dev
            else At(s.cells, id).entry.dev
  {
    hide NextStack, NextWalker, FillEntry, FillWalker, FillTrace, AllLeft, Hashed, At, Put, WorkerAt, SetWorker;
    match step
    case Acquire => PutDev(s.cells, s.free[0], FillCell(setup.cfg, s.walker, At(s.cells, s.free[0])), id);
    case SubmitCancelled =>
      var c := At(s.cells, s.walker.cell);
      PutDev(s.cells, s.walker.cell, c.(wg := c.wg - 1), id);
    case Hash(i) =>
      var x := WorkerAt(s.workers, i).cell;
      var c := At(s.cells, x);
      HashedKeepsDev(setup.cfg, c.entry);
      PutDev(s.cells, x, c.(entry := Hashed(setup.cfg, c.entry)), id);
    case Signal(i) =>
      var c := At(s.cells, WorkerAt(s.workers, i).cell);
      PutDev(s.cells, WorkerAt(s.workers, i).cell, c.(wg := c.wg - 1), id);
    case _ =>
  }

  lemma FillDev(cfg: Config, w: Walker)
    requires w.Acquiring? || w.AcquiringError?
    ensures |FillTrace(cfg, w).log| == 1 && FillTrace(cfg, w).log[0].dev == FillEntry(cfg, w).dev
  {
  }

  lemma DeviceNext(cells: nat, before: seq<Entry>, more: seq<Entry>, c: nat)
    requires cells > 0 && |more| == 1
    ensures DeviceOf(cells, before + more, c)
         == if |before| % cells == c then more[0].dev else DeviceOf(cells, before, c)
  {
    assert (before + more)[..|before|] == before;
  }

  lemma StepRemembers(setup: Setup, s: State, step: Step)
    requires Enabled(setup, s, step) && Inv(setup, s) && !Apply(setup, s, step).walkErr
    requires InTurn(setup, s) && Remembers(setup, s)
    ensures Remembers(setup, Apply(setup, s, step))
  {
    hide Apply, Enabled, Sofar, At, Cells, FillTrace, FillEntry, DeviceOf, Queue, Conserved, Waits, Phase, WorkersStay,
         Blame, Summed;
    var t, n := Apply(setup, s, step), Cells(setup);
    SofarStep(setup, s, step);
    TakenStep(setup, s, step);
    forall c | 0 <= c < n ensures At(t.cells, c).entry.dev == DeviceOf(n, Sofar(setup.cfg, t), c) {
      DevStep(setup, s, step, c);
      if step.Acquire? {
        QueueTurns(setup, s);
        assert Queue(s)[0] == (s.taken + 0) % n;
        assert s.walker.Acquiring? || s.walker.AcquiringError? by { AcquireOnly(setup, s); }
        FillDev(setup.cfg, s.walker);
        DeviceNext(n, Sofar(setup.cfg, s), FillTrace(setup.cfg, s.walker).log, c);
        CellsThere(setup, s);
      } else {
        NoFinals(setup.cfg, s.cells);
      }
    }
    if step.Acquire? {
      AcquireOnly(setup, s);
      FillDev(setup.cfg, s.walker);
    }
  }

  lemma CellsThere(setup: Setup, s: State)
    requires Conserved(setup, s)
    ensures |s.cells| == Cells(setup)
  {
  }

  lemma AcquireOnly(setup: Setup, s: State)
    requires Enabled(setup, s, Acquire)
    ensures s.walker.Acquiring? || s.walker.AcquiringError?
  {
  }

  lemma TakenStep(setup: Setup, s: State, step: Step)
    requires Enabled(setup, s, step)
    ensures Apply(setup, s, step).taken == s.taken + if step.Acquire? then 1 else 0
  {
    hide NextStack, NextWalker, FillCell, FillWalker, FillTrace, AllLeft, At, Put, WorkerAt, HashCell;
    if step.Hash? { HashFields(setup.cfg, s, step.worker); }
  }

  // ---- frames read the cell they were given ----------------------------------------------

  predicate FrameHome(cells: nat, taken: nat, f: Frame) { cells > 0 && f.home == f.pos % cells && f.pos < taken }

  predicate AtHome(setup: Setup, s: State) {
    && (s.walker.Submitting? || s.walker.Committing? ==> FrameHome(Cells(setup), s.taken, s.walker.frame))
    && forall i | 0 <= i < |s.stack| :: FrameHome(Cells(setup), s.taken, s.stack[i])
  }

  lemma NextAtHome(cells: nat, taken: nat, stack: seq<Frame>)
    requires forall i | 0 <= i < |stack| :: FrameHome(cells, taken, stack[i])
    ensures var t := NextStack(stack); forall i | 0 <= i < |t| :: FrameHome(cells, taken, t[i])
  {
  }

  lemma NextNoFrame(cfg: Config, cells: seq<Cell>, stack: seq<Frame>)
    ensures var w := NextWalker(cfg, cells, stack); !w.Submitting? && !w.Committing?
  {
    hide At, Join;
  }

  lemma FillFrame(cfg: Config, w: Walker, id: nat, pos: nat)
    requires w.Acquiring? || w.AcquiringError?
    ensures var f := FillWalker(cfg, w, id, pos);
            f.Submitting? || f.Committing? ==> f.frame.home == id && f.frame.pos == pos
  {
    hide Enters, Draft, NeedsHash;
  }

  lemma StepAtHome(setup: Setup, s: State, step: Step)
    requires Enabled(setup, s, step) && setup.jobs > 0 && InTurn(setup, s) && AtHome(setup, s)
    ensures AtHome(setup, Apply(setup, s, step))
  {
    hide NextStack, NextWalker, FillCell, FillWalker, FillTrace, AllLeft, At, Put, WorkerAt, HashCell, InTurn;
    match step
    case Next =>
      NextAtHome(Cells(setup), s.taken, s.stack);
      NextNoFrame(setup.cfg, s.cells, s.stack);
    case Acquire =>
      FillFrame(setup.cfg, s.walker, s.free[0], s.taken);
      TakenInTurn(setup, s);
    case Hash(i) => HashFields(setup.cfg, s, i);
    case _ =>
  }

  lemma TakenInTurn(setup: Setup, s: State)
    requires InTurn(setup, s) && s.free != [] && setup.jobs > 0
    ensures s.free[0] == s.taken % Cells(setup)
  {
    assert Queue(s)[0] == s.free[0];
    assert Queue(s)[0] == (s.taken + 0) % Cells(setup);
  }

  // ---- what the walker has still to take -------------------------------------------------

  /** What the visits on the stack will add. */
  function OfStack(cfg: Config, cells: nat, before: seq<Entry>, stack: seq<Frame>): Trace
    requires cells > 0
    decreases |stack|
  {
    if stack == [] then NOTHING
    else
      var t := OfFrame(cfg, cells, before, stack[0]);
      Plus(t, OfStack(cfg, cells, before + t.log, stack[1..]))
  }

  function OfFrame(cfg: Config, cells: nat, before: seq<Entry>, f: Frame): Trace
    requires cells > 0
  {
    RingKids(cfg, cells, before, f.dir, f.kids, f.depth, f.pos)
  }

  /** What the walker will add before it turns to the stack. */
  function OfWalker(cfg: Config, cells: nat, before: seq<Entry>, w: Walker): Trace
    requires cells > 0
  {
    match w
    case Entering(path, node, depth, pdev) => RingVisit(cfg, cells, before, path, node, depth, pdev)
    case Acquiring(path, node, depth, pdev) => RingVisit(cfg, cells, before, path, node, depth, pdev)
    case AcquiringError(path, why) => Trace([ErrorEntry(path, why)], [], [])
    case Submitting(_, f) => OfFrame(cfg, cells, before, f)
    case Committing(_, f) => OfFrame(cfg, cells, before, f)
    case _ => NOTHING
  }

  function Future(cfg: Config, cells: nat, before: seq<Entry>, w: Walker, stack: seq<Frame>): Trace
    requires cells > 0
  {
    var t := OfWalker(cfg, cells, before, w);
    Plus(t, OfStack(cfg, cells, before + t.log, stack))
  }

  /** The walker does for the next child what the walk with recycled cells does. */
  lemma NextFuture(cfg: Config, cells: nat, before: seq<Entry>, contents: seq<Cell>, stack: seq<Frame>)
    requires cells > 0
    requires stack != [] ==> At(contents, stack[0].home).entry.dev == DeviceOf(cells, before, stack[0].pos % cells)
    ensures Future(cfg, cells, before, NextWalker(cfg, contents, stack), NextStack(stack))
        == OfStack(cfg, cells, before, stack)
  {
    hide RingVisit, DeviceOf, At, Join, Plus;
    NoFinals(cfg, contents);
    PlusLaws(OfStack(cfg, cells, before, NextStack(stack)), NOTHING, NOTHING);
    if stack != [] && stack[0].kids.Dirent? {
      var f := stack[0];
      var one := OfWalker(cfg, cells, before, NextWalker(cfg, contents, stack));
      var later := OfFrame(cfg, cells, before + one.log, f.(kids := f.kids.rest));
      ChildTrace(cfg, cells, before, f, At(contents, f.home).entry.dev);
      assert NextStack(stack)[0] == f.(kids := f.kids.rest) && NextStack(stack)[1..] == stack[1..];
      hide ToChild, OfWalker, OfFrame;
      PlusLog(one, later);
      assert (before + one.log) + later.log == before + (one.log + later.log);
      PlusLaws(one, later, OfStack(cfg, cells, (before + one.log) + later.log, stack[1..]));
    }
  }

  lemma PlusLog(a: Trace, b: Trace)
    ensures Plus(a, b).log == a.log + b.log
  {
  }

  lemma ChildTrace(cfg: Config, cells: nat, before: seq<Entry>, f: Frame, x: u64)
    requires cells > 0 && f.kids.Dirent? && x == DeviceOf(cells, before, f.pos % cells)
    ensures var one := OfWalker(cfg, cells, before, ToChild(cfg, f.dir, f.kids, f.depth, x));
            OfFrame(cfg, cells, before, f) == Plus(one, OfFrame(cfg, cells, before + one.log, f.(kids := f.kids.rest)))
  {
    hide RingVisit, DeviceOf, Join, Plus;
    var path := Join(f.dir, f.kids.name);
    assert OfWalker(cfg, cells, before, ToChild(cfg, f.dir, f.kids, f.depth, x))
        == RingOne(cfg, cells, before, path, f.kids.stat, f.depth, x);
  }

  /** Filling a cell adds the visit's own part and leaves its children. */
  lemma FillFuture(cfg: Config, cells: nat, before: seq<Entry>, w: Walker, id: nat)
    requires cells > 0 && (w.Acquiring? || w.AcquiringError?)
    ensures var own := FillTrace(cfg, w);
            OfWalker(cfg, cells, before, w)
            == Plus(own, OfWalker(cfg, cells, before + own.log, FillWalker(cfg, w, id, |before|)))
  {
    hide Draft, RingKids, Enters, NeedsHash, Own, Plus;
    PlusLaws(FillTrace(cfg, w), NOTHING, NOTHING);
    EndAdds(cfg, cells, before);
  }

  lemma EndAdds(cfg: Config, cells: nat, before: seq<Entry>)
    requires cells > 0
    ensures forall b, dir, depth, home :: RingKids(cfg, cells, b, dir, End, depth, home) == NOTHING
  {
  }

  lemma AcquireFuture(cfg: Config, cells: nat, before: seq<Entry>, w: Walker, id: nat, stack: seq<Frame>)
    requires cells > 0 && (w.Acquiring? || w.AcquiringError?)
    ensures var own := FillTrace(cfg, w);
            Future(cfg, cells, before, w, stack)
            == Plus(own, Future(cfg, cells, before + own.log, FillWalker(cfg, w, id, |before|), stack))
  {
    hide FillWalker, FillTrace, OfWalker, OfStack, Plus;
    var own := FillTrace(cfg, w);
    var later := OfWalker(cfg, cells, before + own.log, FillWalker(cfg, w, id, |before|));
    FillFuture(cfg, cells, before, w, id);
    PlusLog(own, later);
    assert (before + own.log) + later.log == before + (own.log + later.log);
    PlusLaws(own, later, OfStack(cfg, cells, (before + own.log) + later.log, stack));
  }

  /** What is still to come changes only by what a taken cell adds, unless the walker gives up. */
  lemma FutureStep(setup: Setup, s: State, step: Step)
    requires setup.jobs > 0 && Enabled(setup, s, step) && Inv(setup, s) && !Apply(setup, s, step).walkErr
    requires Remembers(setup, s) && AtHome(setup, s)
    ensures var t, n := Apply(setup, s, step), Cells(setup);
            var b := Sofar(setup.cfg, s);
            Future(setup.cfg, n, b, s.walker, s.stack)
            == if step.Acquire?
               then Plus(FillTrace(setup.cfg, s.walker),
                         Future(setup.cfg, n, b + FillTrace(setup.cfg, s.walker).log, t.walker, t.stack))
               else Future(setup.cfg, n, b, t.walker, t.stack)
  {
    hide NextStack, NextWalker, FillCell, FillWalker, FillTrace, AllLeft, At, Put, WorkerAt, HashCell, Sofar, OfFrame,
         RingVisit, DeviceOf, Conserved, Waits, WorkersStay, Summed, Plus;
    var b, n := Sofar(setup.cfg, s), Cells(setup);
    match step
    case Next =>
      if s.stack != [] { HomeDevice(setup, s); }
      NextFuture(setup.cfg, n, b, s.cells, s.stack);
      PlusLaws(OfStack(setup.cfg, n, b, s.stack), NOTHING, NOTHING);
      NoFinals(setup.cfg, s.cells);
    case Acquire => AcquireFuture(setup.cfg, n, b, s.walker, s.free[0], s.stack);
    case Commit => CommitFuture(setup, s);
    case Hash(i) => HashFields(setup.cfg, s, i);
    case _ =>
  }

  lemma HomeDevice(setup: Setup, s: State)
    requires setup.jobs > 0 && Remembers(setup, s) && AtHome(setup, s) && s.stack != []
    ensures At(s.cells, s.stack[0].home).entry.dev
         == DeviceOf(Cells(setup), Sofar(setup.cfg, s), s.stack[0].pos % Cells(setup))
  {
    hide At, DeviceOf, Sofar;
    assert FrameHome(Cells(setup), s.taken, s.stack[0]);
  }

  lemma CommitFuture(setup: Setup, s: State)
    requires setup.jobs > 0 && Enabled(setup, s, Commit)
    ensures var t, n, b := Apply(setup, s, Commit), Cells(setup), Sofar(setup.cfg, s);
            Future(setup.cfg, n, b, t.walker, t.stack) == Future(setup.cfg, n, b, s.walker, s.stack)
  {
    hide OfFrame, Sofar, Plus;
    var t, n, b := Apply(setup, s, Commit), Cells(setup), Sofar(setup.cfg, s);
    NoFinals(setup.cfg, s.cells);
    PlusLaws(OfStack(setup.cfg, n, b, t.stack), NOTHING, NOTHING);
    if s.walker.Committing? { assert t.stack[1..] == s.stack; }
  }

  // ---- refinement ------------------------------------------------------------------------

  /** Everything taken and counted so far, and everything still to come. */
  function Total(setup: Setup, s: State): Trace
    requires setup.jobs > 0
  {
    var b := Sofar(setup.cfg, s);
    Plus(Trace(b, s.pruned, s.barriers), Future(setup.cfg, Cells(setup), b, s.walker, s.stack))
  }

  /** The walk the code performs with this many jobs. */
  function WalkOf(setup: Setup): Trace
    requires setup.jobs > 0
  {
    RingTrace(setup.cfg, Cells(setup), setup.root, setup.tree)
  }

  lemma CountsStep(setup: Setup, s: State, step: Step)
    requires Enabled(setup, s, step)
    ensures var t := Apply(setup, s, step);
            && t.pruned == s.pruned + (if step.Acquire? then FillTrace(setup.cfg, s.walker).pruned else [])
            && t.barriers == s.barriers + if step.Acquire? then FillTrace(setup.cfg, s.walker).barriers else []
  {
    hide NextStack, NextWalker, FillCell, FillWalker, FillTrace, AllLeft, At, Put, WorkerAt, HashCell;
    if step.Hash? { HashFields(setup.cfg, s, step.worker); }
    assert s.pruned + [] == s.pruned && s.barriers + [] == s.barriers;
  }

  lemma FailedStays(setup: Setup, s: State, step: Step)
    requires Enabled(setup, s, step) && Inv(setup, s)
    ensures var t := Apply(setup, s, step);
            (s.walkErr ==> t.walkErr) && (t.walkErr ==> !step.Commit?) && (step.SubmitCancelled? ==> t.walkErr)
  {
    hide Conserved, Waits, Phase, WorkersStay, Summed, NextStack, NextWalker, FillCell, FillWalker, FillTrace, At,
         WorkerAt, AllLeft;
  }

  lemma TotalStep(setup: Setup, s: State, step: Step)
    requires setup.jobs > 0 && Enabled(setup, s, step) && Inv(setup, s) && !Apply(setup, s, step).walkErr
    requires Remembers(setup, s) && AtHome(setup, s)
    ensures Total(setup, Apply(setup, s, step)) == Total(setup, s)
  {
    hide Apply, Enabled, Inv, Sofar, Future, FillTrace, Remembers, AtHome;
    var t, b := Apply(setup, s, step), Sofar(setup.cfg, s);
    SofarStep(setup, s, step);
    CountsStep(setup, s, step);
    FutureStep(setup, s, step);
    NoFinals(setup.cfg, s.cells);
    if step.Acquire? {
      AcquireOnly(setup, s);
      var own := FillTrace(setup.cfg, s.walker);
      PlusLaws(Trace(b, s.pruned, s.barriers), own,
               Future(setup.cfg, Cells(setup), b + own.log, t.walker, t.stack));
    } else {
      assert s.pruned + [] == s.pruned && s.barriers + [] == s.barriers;
    }
  }

  ghost predicate Refines(setup: Setup, s: State)
    requires setup.jobs > 0
  {
    && Inv(setup, s)
    && IsPrefix(Past(setup.cfg, s), WalkOf(setup).log)
    && (!s.walkErr ==> InTurn(setup, s) && Remembers(setup, s) && AtHome(setup, s) && Total(setup, s) == WalkOf(setup))
  }

  lemma PastIsPrefix(setup: Setup, s: State)
    requires setup.jobs > 0
    ensures IsPrefix(Past(setup.cfg, s), Total(setup, s).log)
  {
    hide Past, Finals, Future;
  }

  lemma StepRefines(setup: Setup, s: State, step: Step)
    requires setup.jobs > 0 && Enabled(setup, s, step) && Refines(setup, s)
    ensures Refines(setup, Apply(setup, s, step))
  {
    hide Inv, Past, Total, WalkOf, Finals, Enabled, Apply, IsPrefix, InTurn, Remembers, AtHome;
    var t := Apply(setup, s, step);
    StepInv(setup, s, step);
    FailedStays(setup, s, step);
    if t.walkErr {
      PastStep(setup, s, step);
      NoFinals(setup.cfg, s.cells);
    } else {
      StepInTurn(setup, s, step);
      StepRemembers(setup, s, step);
      StepAtHome(setup, s, step);
      TotalStep(setup, s, step);
      PastIsPrefix(setup, t);
    }
  }

  lemma InitRefines(setup: Setup)
    requires setup.jobs > 0
    ensures Refines(setup, Init(setup))
  {
    hide RingVisit, Conserved, Waits, Phase, WorkersStay, Blame, Summed;
    var s := Init(setup);
    InitInv(setup);
    assert Sofar(setup.cfg, s) == [] && Past(setup.cfg, s) == [];
    InitInTurn(setup);
    PlusLaws(RingTrace(setup.cfg, Cells(setup), setup.root, setup.tree), NOTHING, NOTHING);
    NoFinals(setup.cfg, s.cells);
  }

  lemma InitInTurn(setup: Setup)
    requires setup.jobs > 0
    ensures InTurn(setup, Init(setup))
  {
    var n := Cells(setup);
    assert Queue(Init(setup)) == Range(n);
    forall i | 0 <= i < n ensures Range(n)[i] == (0 + i) % n { SmallModulus(i, n); }
  }

  lemma {:induction false} RunRefines(setup: Setup, s: State, run: seq<Step>)
    requires setup.jobs > 0 && Legal(setup, s, run) && Refines(setup, s)
    ensures Refines(setup, Run(setup, s, run))
    decreases |run|
  {
    hide Apply, Enabled, Refines;
    if run != [] {
      StepRefines(setup, s, run[0]);
      RunRefines(setup, Apply(setup, s, run[0]), run[1..]);
    }
  }

  /** What Walk returns. */
  datatype Result = Nil | EmitError | ContextError

  function WalkResult(s: State): Result {
    if s.emitErr then EmitError else if s.walkErr then ContextError else Nil
  }

  lemma PrefixesCompose<T>(a: seq<T>, b: seq<T>, c: seq<T>, all: seq<T>)
    requires IsPrefix(a, b) && IsPrefix(b + c, all)
    ensures IsPrefix(a, all)
  {
  }

  lemma RefinesMeans(setup: Setup, s: State)
    requires setup.jobs > 0 && Refines(setup, s)
    ensures IsPrefix(s.emitted, WalkOf(setup).log)
    ensures s.consumer.Returned? && WalkResult(s) == Nil ==> Trace(s.emitted, s.pruned, s.barriers) == WalkOf(setup)
    ensures WalkResult(s) == ContextError ==> s.outside
  {
    hide Conserved, Waits, WalkOf, Finals, WorkersStay, Summed, InTurn, Remembers, AtHome;
    PrefixesCompose(s.emitted, s.consumed, Finals(setup.cfg, s.cells, InFlight(s)), WalkOf(setup).log);
    NoFinals(setup.cfg, s.cells);
    if s.consumer.Returned? && WalkResult(s) == Nil {
      assert InFlight(s) == [];
      PlusLaws(Trace(s.emitted, s.pruned, s.barriers), NOTHING, NOTHING);
      PlusLaws(NOTHING, NOTHING, NOTHING);
    }
  }

  /**
   * For every tree, mount policy, number of jobs, interleaving, cancellation point and emit error: the entries
   * handed to emit are a prefix of the walk with recycled cells; they are all of it, and the directories
   * counted as pruned and the mounts noted are its own, when Walk returns nil.
   */
  lemma WalkIsRingWalk(setup: Setup, run: seq<Step>)
    requires setup.jobs > 0 && Legal(setup, Init(setup), run)
    ensures var s := Run(setup, Init(setup), run);
            && IsPrefix(s.emitted, WalkOf(setup).log)
            && (s.consumer.Returned? && WalkResult(s) == Nil ==>
                  Trace(s.emitted, s.pruned, s.barriers) == WalkOf(setup))
            && (WalkResult(s) == ContextError ==> s.outside)
  {
    hide Init, Legal, Run, Refines, IsPrefix, WalkOf, WalkResult;
    InitRefines(setup);
    RunRefines(setup, Init(setup), run);
    RefinesMeans(setup, Run(setup, Init(setup), run));
  }

  /** The late read of e.Dev changes no decision that matters. */
  ghost predicate DevicesAgree(setup: Setup)
    requires setup.jobs > 0
  {
    FaithfulWalk(setup.cfg, Cells(setup), setup.root, setup.tree)
  }

  /** A run that returns nil has emitted the sequential walk exactly when the late read changes no decision
      that matters; then every run emits a prefix of it. */
  lemma WalkIsSequential(setup: Setup, run: seq<Step>)
    requires setup.jobs > 0 && WellFormed(setup.tree) && Legal(setup, Init(setup), run)
    ensures var s := Run(setup, Init(setup), run);
            var scan := Scan(setup.cfg, setup.root, setup.tree);
            && (s.consumer.Returned? && WalkResult(s) == Nil ==> (s.emitted == scan <==> DevicesAgree(setup)))
            && (DevicesAgree(setup) ==> IsPrefix(s.emitted, scan))
  {
    hide Init, Legal, Run, IsPrefix, FaithfulWalk, WalkResult, Scan, WellFormed, RingVisit, Part;
    WalkIsRingWalk(setup, run);
    RingScanIsScan(setup.cfg, Cells(setup), setup.root, setup.tree);
  }

  /** A run in which Walk returns nil having emitted es. */
  ghost predicate Yields(setup: Setup, run: seq<Step>, es: seq<Entry>) {
    && Legal(setup, Init(setup), run)
    && var s := Run(setup, Init(setup), run);
       s.consumer.Returned? && WalkResult(s) == Nil && s.emitted == es
  }

  /** What is emitted never depends on the schedule, and it is the same with other Jobs exactly when no decision that
      shows differs between the two numbers of cells. */
  lemma JobsDoNotMatter(a: Setup, b: Setup, run: seq<Step>, run': seq<Step>, es: seq<Entry>, fs: seq<Entry>)
    requires b == a.(jobs := b.jobs) && a.jobs > 0 && b.jobs > 0 && WellFormed(a.tree)
    requires Yields(a, run, es) && Yields(b, run', fs)
    ensures es == fs <==> WalksAgree(a.cfg, Cells(a), Cells(b), a.root, a.tree)
    ensures a.jobs == b.jobs || (DevicesAgree(a) && DevicesAgree(b)) ==> es == fs
    ensures DevicesAgree(a) && !DevicesAgree(b) ==> es != fs
  {
    hide Init, Legal, Run, IsPrefix, Scan, WalkResult, FaithfulWalk, WellFormed, RingVisit, WalksAgree, Part;
    WalkIsRingWalk(a, run);
    WalkIsRingWalk(b, run');
    WalkIsSequential(a, run);
    WalkIsSequential(b, run');
    RingScansAgree(a.cfg, Cells(a), Cells(b), a.root, a.tree);
  }

  lemma PrefixOrdered(a: seq<Entry>, b: seq<Entry>)
    requires IsPrefix(a, b) && Ordered(b)
    ensures Ordered(a)
  {
    hide Less;
    var d := b[|a|..];
    assert b == a + d;
    PathsConcat(a, d);
    IncreasingParts(Paths(a), Paths(d));
  }

  /** Whatever is emitted is strictly increasing, in every run, under every mount policy and whatever the late
      read of e.Dev finds. */
  lemma EmittedInOrder(setup: Setup, run: seq<Step>)
    requires setup.jobs > 0 && WellFormed(setup.tree) && Legal(setup, Init(setup), run)
    ensures Ordered(Run(setup, Init(setup), run).emitted)
  {
    hide Init, Legal, Run, WellFormed, Ordered, IsPrefix, WalkResult, RingVisit;
    WalkIsRingWalk(setup, run);
    RingVisitOrdered(setup.cfg, Cells(setup), [], setup.root, setup.tree, 0, setup.tree.info.dev);
    PrefixOrdered(Run(setup, Init(setup), run).emitted, WalkOf(setup).log);
  }
}
