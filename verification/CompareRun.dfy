/** baseline and compare as whole runs: scan, write, reopen, join, count, exit (cmd/osfp/baseline.go,
    cmd/osfp/compare.go). */
module CompareRun {
  import opened Bytes
  import opened Canon
  import opened ScanEntry
  import opened Walk
  import opened Classification
  import opened MapDiff
  import opened Prune
  import J = Join

  // ---- expected noise and the exit code --------------------------------------------------

  function CountVolatile(volatile: Path -> bool, cs: seq<Change>): nat {
    if cs == [] then 0 else CountVolatile(volatile, cs[..|cs| - 1]) + if volatile(cs[|cs| - 1].path) then 1 else 0
  }

  lemma {:induction false} VolatileBound(volatile: Path -> bool, cs: seq<Change>)
    ensures CountVolatile(volatile, cs) <= |cs|
    ensures CountVolatile(volatile, cs) == |cs| <==> forall c | c in cs :: volatile(c.path)
  {
    if cs != [] {
      assert cs == cs[..|cs| - 1] + [cs[|cs| - 1]];
      VolatileBound(volatile, cs[..|cs| - 1]);
    }
  }

  lemma {:induction false} VolatileMeans(volatile: Path -> bool, cs: seq<Change>)
    ensures CountVolatile(volatile, cs) == HowMany(cs, (c: Change) => volatile(c.path))
  {
    if cs != [] { VolatileMeans(volatile, cs[..|cs| - 1]); }
  }

  datatype Exit = ExitOk | ExitDiff

  /** The emit callback's counter, over the changes of a run, and the decision at its end. */
  method Decide(emitted: seq<Change>, total: nat, volatile: Path -> bool, failOnDiff: bool)
    returns (exit: Exit, expected: nat)
    requires total == |emitted|
    ensures expected == CountVolatile(volatile, emitted)
    ensures exit == ExitDiff <==> failOnDiff && exists c :: c in emitted && !volatile(c.path)
  {
    expected := 0;
    for i := 0 to |emitted|
      invariant expected == CountVolatile(volatile, emitted[..i])
    {
      assert emitted[..i + 1][..i] == emitted[..i];
      if volatile(emitted[i].path) { expected := expected + 1; }
    }
    assert emitted[..|emitted|] == emitted;
    VolatileBound(volatile, emitted);
    exit := if total > expected && failOnDiff then ExitDiff else ExitOk;
  }

  /** The tally of a finished join is the number of changes handed over, so the decision is about them. */
  lemma ExitIsExact(o: J.Options, base: seq<Entry>, live: seq<Entry>, volatile: Path -> bool)
    ensures var cs := Merge(base, live);
            var emitted := J.Kept(o, cs);
            J.Total(J.TallyAll(o, cs).counts) > CountVolatile(volatile, emitted)
            <==> exists c :: c in emitted && !volatile(c.path)
  {
    hide Merge, J.Kept, J.TallyAll, J.Total;
    J.MergeNeverNone(base, live);
    J.TallyTotals(o, Merge(base, live));
    VolatileBound(volatile, J.Kept(o, Merge(base, live)));
  }

  // ---- comparing a tree with itself ------------------------------------------------------

  /** Equal but for the modification time, and for that too when nothing else can be compared. */
  predicate Twins(was: Entry, live: Entry) {
    live == was.(mtime := live.mtime) && (was.typ == TYPE_FILE && !was.hashed ==> live.mtime == was.mtime)
  }

  predicate AllTwins(base: seq<Entry>, live: seq<Entry>) {
    |base| == |live| && forall i | 0 <= i < |base| :: Twins(base[i], live[i])
  }

  /** One ?E per entry carrying an error. */
  function Unreadable(base: seq<Entry>, live: seq<Entry>): seq<Change>
    requires |base| == |live|
  {
    if base == [] then []
    else (if base[0].err != [] then [Change(OpUnreadable, base[0].path, Some(base[0]), Some(live[0]), None)] else [])
         + Unreadable(base[1..], live[1..])
  }

  lemma TwinsClassify(was: Entry, live: Entry)
    requires Twins(was, live)
    ensures Classify(was, live) == if was.err != [] then OpUnreadable else OpNone
    ensures was.path == live.path
  {
  }

  lemma {:induction false} TwinsMerge(base: seq<Entry>, live: seq<Entry>)
    requires AllTwins(base, live)
    ensures Merge(base, live) == Unreadable(base, live) && Common(base, live) == |base|
  {
    hide Classify, Less, Twins;
    if base != [] {
      TwinsClassify(base[0], live[0]);
      StrictTotalOrder(base[0].path, base[0].path, base[0].path);
      TwinsMerge(base[1..], live[1..]);
    }
  }

  // ---- the same tree with other modification times ---------------------------------------

  ghost predicate Retimed(a: Node, b: Node)
    decreases a, 1
  {
    b.info == a.info.(mtime := b.info.mtime) && b.readlink == a.readlink && b.listErr == a.listErr
        && RetimedKids(a.kids, b.kids)
  }

  ghost predicate RetimedKids(a: Listing, b: Listing)
    decreases a, 0
  {
    match a
    case End => b.End?
    case Dirent(name, stat, rest) =>
      && b.Dirent? && b.name == name && RetimedKids(rest, b.rest)
      && (match stat
          case Gone(why) => b.stat == Gone(why)
          case Present(node) => b.stat.Present? && Retimed(node, b.stat.node))
  }

  ghost predicate SameButTimes(es: seq<Entry>, fs: seq<Entry>) {
    |es| == |fs| && forall i | 0 <= i < |es| :: fs[i] == es[i].(mtime := fs[i].mtime)
  }

  lemma SameConcat(a: seq<Entry>, b: seq<Entry>, c: seq<Entry>, d: seq<Entry>)
    requires SameButTimes(a, c) && SameButTimes(b, d)
    ensures SameButTimes(a + b, c + d)
  {
  }

  /** The decision to descend looks at the path only. */
  ghost predicate ByPath(cfg: Config) {
    forall e: Entry, f: Entry | e.path == f.path :: cfg.descend(e) == cfg.descend(f)
  }

  lemma RetimedDraft(cfg: Config, path: Path, a: Node, b: Node, depth: nat, pdev: u64)
    requires Retimed(a, b) && ByPath(cfg)
    ensures Enters(cfg, path, b, depth, pdev) == Enters(cfg, path, a, depth, pdev)
    ensures SameButTimes([Draft(cfg, path, a, depth, pdev)], [Draft(cfg, path, b, depth, pdev)])
  {
    hide RetimedKids;
    assert cfg.descend(StatEntry(path, b)) == cfg.descend(StatEntry(path, a));
  }

  lemma {:induction false} RetimedVisit(cfg: Config, path: Path, a: Node, b: Node, depth: nat, pdev: u64)
    requires Retimed(a, b) && ByPath(cfg)
    ensures SameButTimes(Visit(cfg, path, a, depth, pdev), Visit(cfg, path, b, depth, pdev))
    decreases a, 1
  {
    hide Draft, Enters, SameButTimes, ByPath;
    RetimedDraft(cfg, path, a, b, depth, pdev);
    RetimedVisitKids(cfg, path, a.kids, b.kids, depth + 1, a.info.dev);
    NothingSame();
    SameConcat([Draft(cfg, path, a, depth, pdev)], VisitKids(cfg, path, a.kids, depth + 1, a.info.dev),
               [Draft(cfg, path, b, depth, pdev)], VisitKids(cfg, path, b.kids, depth + 1, b.info.dev));
    SameConcat([Draft(cfg, path, a, depth, pdev)], [], [Draft(cfg, path, b, depth, pdev)], []);
  }

  lemma NothingSame()
    ensures SameButTimes([], [])
  {
  }

  lemma {:induction false} RetimedVisitKids(cfg: Config, dir: Path, a: Listing, b: Listing, depth: nat, pdev: u64)
    requires RetimedKids(a, b) && ByPath(cfg)
    ensures SameButTimes(VisitKids(cfg, dir, a, depth, pdev), VisitKids(cfg, dir, b, depth, pdev))
    decreases a, 0
  {
    hide Visit, Join, SameButTimes, ByPath;
    NothingSame();
    if a.Dirent? {
      var path := Join(dir, a.name);
      RetimedVisitKids(cfg, dir, a.rest, b.rest, depth, pdev);
      RetimedVisitOne(cfg, path, a.stat, b.stat, depth, pdev);
      SameConcat(VisitOne(cfg, path, a.stat, depth, pdev), VisitKids(cfg, dir, a.rest, depth, pdev),
                 VisitOne(cfg, path, b.stat, depth, pdev), VisitKids(cfg, dir, b.rest, depth, pdev));
    }
  }

  lemma {:induction false} RetimedVisitOne(cfg: Config, path: Path, a: Stat, b: Stat, depth: nat, pdev: u64)
    requires match a case Gone(why) => b == a case Present(node) => b.Present? && Retimed(node, b.node)
    requires ByPath(cfg)
    ensures SameButTimes(VisitOne(cfg, path, a, depth, pdev), VisitOne(cfg, path, b, depth, pdev))
    decreases a, 2
  {
    hide Visit, ByPath;
    if a.Present? && !cfg.exclude(path) { RetimedVisit(cfg, path, a.node, b.node, depth, pdev); }
  }

  lemma RetimedFinished(cfg: Config, e: Entry, f: Entry)
    requires f == e.(mtime := f.mtime)
    ensures Finished(cfg, f) == Finished(cfg, e).(mtime := f.mtime)
  {
  }

  lemma RetimedScan(cfg: Config, root: Path, a: Node, b: Node)
    requires Retimed(a, b) && ByPath(cfg)
    ensures SameButTimes(Scan(cfg, root, a), Scan(cfg, root, b))
  {
    hide Visit, Finished, ByPath, RetimedKids;
    var v, w := Visit(cfg, root, a, 0, a.info.dev), Visit(cfg, root, b, 0, b.info.dev);
    RetimedVisit(cfg, root, a, b, 0, a.info.dev);
    forall i | 0 <= i < |v|
      ensures Scan(cfg, root, b)[i] == Scan(cfg, root, a)[i].(mtime := Scan(cfg, root, b)[i].mtime)
    {
      RetimedFinished(cfg, v[i], w[i]);
    }
  }

  // ---- what a scan leaves for the store --------------------------------------------------

  predicate Clean(e: Entry) { !e.hashed && e.hash == NO_HASH }

  lemma {:induction false} VisitClean(cfg: Config, path: Path, node: Node, depth: nat, pdev: u64)
    ensures forall e | e in Visit(cfg, path, node, depth, pdev) :: Clean(e)
    decreases node, 1
  {
    hide Enters;
    KidsClean(cfg, path, node.kids, depth + 1, node.info.dev);
  }

  lemma {:induction false} KidsClean(cfg: Config, dir: Path, kids: Listing, depth: nat, pdev: u64)
    ensures forall e | e in VisitKids(cfg, dir, kids, depth, pdev) :: Clean(e)
    decreases kids, 0
  {
    hide Visit, Join;
    if kids.Dirent? {
      KidsClean(cfg, dir, kids.rest, depth, pdev);
      if kids.stat.Present? { VisitClean(cfg, Join(dir, kids.name), kids.stat.node, depth, pdev); }
    }
  }

  /** A digest is present only where it was computed: storing a scan loses nothing. */
  lemma ScanKeepsDigests(cfg: Config, root: Path, tree: Node)
    ensures var es := Scan(cfg, root, tree); forall i | 0 <= i < |es| :: es[i].hashed || es[i].hash == NO_HASH
  {
    hide Visit;
    VisitClean(cfg, root, tree, 0, tree.info.dev);
    var v := Visit(cfg, root, tree, 0, tree.info.dev);
    forall i | 0 <= i < |v| ensures Finished(cfg, v[i]).hashed || Finished(cfg, v[i]).hash == NO_HASH {
      assert v[i] in v;
    }
  }

  // ---- a fingerprint against its own tree ------------------------------------------------

  lemma {:induction false} PrunedByNone(dirs: set<Path>, es: seq<Entry>)
    requires forall e | e in es && e.typ == TYPE_DIR :: e.path in dirs
    ensures Pruned({}, dirs, es) == es
  {
    if es != [] {
      assert es == [es[0]] + es[1..];
      PrunedByNone(dirs, es[1..]);
    }
  }

  /** When every live directory is known, pruning leaves the walk as it was. */
  lemma NothingNew(cfg: Config, base: seq<Entry>, root: Path, tree: Node)
    requires WellFormed(tree) && root != [] && root in DirPaths(base)
    requires DirPaths(Scan(Deep(cfg), root, tree)) <= DirPaths(base)
    ensures Scan(Knowing(cfg, DirPaths(base)), root, tree) == Scan(Deep(cfg), root, tree)
  {
    hide Scan, Pruned, WellFormed;
    var deep := Scan(Deep(cfg), root, tree);
    PrunedScan(cfg, base, root, tree);
    assert NewDirs(base, deep) == {};
    forall e | e in deep && e.typ == TYPE_DIR ensures e.path in DirPaths(base) {
      assert e.path in DirPaths(deep);
    }
    PrunedByNone(DirPaths(base), deep);
  }

  lemma SameDirs(es: seq<Entry>, fs: seq<Entry>)
    requires SameButTimes(es, fs)
    ensures DirPaths(fs) <= DirPaths(es)
  {
    forall p | p in DirPaths(fs) ensures p in DirPaths(es) {
      var f :| f in fs && f.typ == TYPE_DIR && f.path == p;
      var i :| 0 <= i < |fs| && fs[i] == f;
      assert es[i] in es && es[i].typ == TYPE_DIR;
    }
  }

  /**
   * Self-comparison is silent: whatever happened to the modification times of directories, links and
   * hashed files, all entries are compared and only those that carry an error are reported.
   */
  lemma SelfComparison(cfg: Config, root: Path, tree: Node, later: Node)
    requires WellFormed(tree) && WellFormed(later) && tree.info.typ == TYPE_DIR && root != [] && Retimed(tree, later)
    requires var was, now := Scan(Deep(cfg), root, tree), Scan(Deep(cfg), root, later);
             forall i | 0 <= i < |was| && i < |now| ::
               was[i].typ == TYPE_FILE && !was[i].hashed ==> now[i].mtime == was[i].mtime
    ensures var base := Scan(Deep(cfg), root, tree);
            var live := Scan(Knowing(cfg, DirPaths(base)), root, later);
            && |live| == |base| && Common(base, live) == |base|
            && Merge(base, live) == Unreadable(base, live)
  {
    hide Scan, WellFormed, Merge, Common;
    var base, now := Scan(Deep(cfg), root, tree), Scan(Deep(cfg), root, later);
    RetimedScan(Deep(cfg), root, tree, later);
    ScanStartsAtRoot(Deep(cfg), root, tree);
    assert base[0] in base;
    SameDirs(base, now);
    NothingNew(cfg, base, root, later);
    assert AllTwins(base, now);
    TwinsMerge(base, now);
  }
}
