/** The walk with recycled cells, taken for a fingerprint and taken again by compare. */
module RingCompare {
  import opened Bytes
  import opened Canon
  import opened ScanEntry
  import opened Walk
  import opened RingWalk
  import opened RingAgree
  import opened RingFaithful
  import opened Classification
  import opened MapDiff
  import opened Prune
  import opened CompareRun

  // ---- what a walk leaves for the store --------------------------------------------------

  ghost predicate KeepsDigests(es: seq<Entry>) {
    forall e | e in es :: e.hashed || e.hash == NO_HASH
  }

  lemma OwnKeepsDigests(cfg: Config, path: Path, node: Node, depth: nat, pdev: u64)
    ensures KeepsDigests(Own(cfg, path, node, depth, pdev).log)
  {
    hide MayDescend;
  }

  lemma {:induction false} RingKeepsDigests(cfg: Config, cells: nat, before: seq<Entry>, path: Path, node: Node,
                                            depth: nat, pdev: u64)
    requires cells > 0
    ensures KeepsDigests(RingVisit(cfg, cells, before, path, node, depth, pdev).log)
    decreases node, 1
  {
    hide Own, Enters, RingKids;
    OwnKeepsDigests(cfg, path, node, depth, pdev);
    KidsKeepDigests(cfg, cells, before + Own(cfg, path, node, depth, pdev).log, path, node.kids, depth + 1, |before|);
  }

  lemma {:induction false} KidsKeepDigests(cfg: Config, cells: nat, before: seq<Entry>, dir: Path, kids: Listing,
                                           depth: nat, home: nat)
    requires cells > 0
    ensures KeepsDigests(RingKids(cfg, cells, before, dir, kids, depth, home).log)
    decreases kids, 0
  {
    hide RingVisit, DeviceOf, Join;
    if kids.Dirent? {
      var path, x := Join(dir, kids.name), DeviceOf(cells, before, home % cells);
      var one := RingOne(cfg, cells, before, path, kids.stat, depth, x);
      if kids.stat.Present? { RingKeepsDigests(cfg, cells, before, path, kids.stat.node, depth, x); }
      KidsKeepDigests(cfg, cells, before + one.log, dir, kids.rest, depth, home);
    }
  }

  // ---- the same tree with other modification times ---------------------------------------

  lemma {:induction false} SameDevices(cells: nat, a: seq<Entry>, b: seq<Entry>, cell: nat)
    requires cells > 0 && SameButTimes(a, b)
    ensures DeviceOf(cells, a, cell) == DeviceOf(cells, b, cell)
  {
    if a != [] {
      var n := |a| - 1;
      assert b[n].dev == a[n].dev;
      SameDevices(cells, a[..n], b[..n], cell);
    }
  }

  lemma RetimedOwn(cfg: Config, path: Path, a: Node, b: Node, depth: nat, pdev: u64)
    requires Retimed(a, b) && ByPath(cfg)
    ensures Enters(cfg, path, b, depth, pdev) == Enters(cfg, path, a, depth, pdev)
    ensures SameButTimes(Own(cfg, path, a, depth, pdev).log, Own(cfg, path, b, depth, pdev).log)
  {
    hide RetimedKids, Draft, Finished, Enters, ByPath;
    RetimedDraft(cfg, path, a, b, depth, pdev);
    var d, d' := Draft(cfg, path, a, depth, pdev), Draft(cfg, path, b, depth, pdev);
    assert [d'][0] == [d][0].(mtime := [d'][0].mtime);
    RetimedFinished(cfg, d, d');
  }

  lemma {:induction false} RetimedRing(cfg: Config, cells: nat, p: seq<Entry>, q: seq<Entry>, path: Path, a: Node,
                                       b: Node, depth: nat, pdev: u64)
    requires cells > 0 && Retimed(a, b) && ByPath(cfg) && SameButTimes(p, q)
    ensures SameButTimes(RingVisit(cfg, cells, p, path, a, depth, pdev).log,
                         RingVisit(cfg, cells, q, path, b, depth, pdev).log)
    decreases a, 1
  {
    hide Own, Enters, SameButTimes, ByPath, RingKids;
    var own, own' := Own(cfg, path, a, depth, pdev).log, Own(cfg, path, b, depth, pdev).log;
    RetimedOwn(cfg, path, a, b, depth, pdev);
    SameConcat(p, own, q, own');
    SameLength(p, q);
    RetimedRingKids(cfg, cells, p + own, q + own', path, a.kids, b.kids, depth + 1, |p|);
    SameConcat(own, RingKids(cfg, cells, p + own, path, a.kids, depth + 1, |p|).log,
               own', RingKids(cfg, cells, q + own', path, b.kids, depth + 1, |q|).log);
  }

  lemma SameLength(p: seq<Entry>, q: seq<Entry>)
    requires SameButTimes(p, q)
    ensures |p| == |q|
  {
  }

  lemma {:induction false} RetimedRingKids(cfg: Config, cells: nat, p: seq<Entry>, q: seq<Entry>, dir: Path, a: Listing,
                                           b: Listing, depth: nat, home: nat)
    requires cells > 0 && RetimedKids(a, b) && ByPath(cfg) && SameButTimes(p, q)
    ensures SameButTimes(RingKids(cfg, cells, p, dir, a, depth, home).log,
        RingKids(cfg, cells, q, dir, b, depth, home).log)
    decreases a, 0
  {
    hide RingVisit, DeviceOf, Join, SameButTimes, ByPath;
    NothingSame();
    if a.Dirent? {
      var path, x := Join(dir, a.name), DeviceOf(cells, p, home % cells);
      SameDevices(cells, p, q, home % cells);
      var one, one' := RingOne(cfg, cells, p, path, a.stat, depth, x).log,
          RingOne(cfg, cells, q, path, b.stat, depth, x).log;
      assert SameButTimes(one, one') by {
        match a.stat
        case Gone(why) => ErrorSame(path, why);
        case Present(node) => RetimedRing(cfg, cells, p, q, path, node, b.stat.node, depth, x);
      }
      hide RingOne;
      SameConcat(p, one, q, one');
      RetimedRingKids(cfg, cells, p + one, q + one', dir, a.rest, b.rest, depth, home);
      SameConcat(one, RingKids(cfg, cells, p + one, dir, a.rest, depth, home).log,
                 one', RingKids(cfg, cells, q + one', dir, b.rest, depth, home).log);
    }
  }

  lemma ErrorSame(path: Path, why: Bytes)
    ensures SameButTimes([ErrorEntry(path, why)], [ErrorEntry(path, why)])
  {
  }

  // ---- every directory walked is known ---------------------------------------------------

  ghost predicate AllKnown(es: seq<Entry>, dirs: set<Path>) {
    forall e | e in es && e.typ == TYPE_DIR :: e.path in dirs
  }

  /** Entering every directory, or those known. */
  ghost predicate Asks(cfg: Config, dirs: set<Path>, c: Config) {
    c == Deep(cfg) || c == Knowing(cfg, dirs)
  }

  lemma KnownOwn(cfg: Config, dirs: set<Path>, path: Path, node: Node, depth: nat, pdev: u64)
    requires node.info.typ == TYPE_DIR ==> path in dirs
    ensures Enters(Knowing(cfg, dirs), path, node, depth, pdev) == Enters(Deep(cfg), path, node, depth, pdev)
    ensures Own(Knowing(cfg, dirs), path, node, depth, pdev) == Own(Deep(cfg), path, node, depth, pdev)
  {
    assert Draft(Knowing(cfg, dirs), path, node, depth, pdev) == Draft(Deep(cfg), path, node, depth, pdev);
    var d := Draft(Deep(cfg), path, node, depth, pdev);
    assert Finished(Knowing(cfg, dirs), d) == Finished(Deep(cfg), d);
  }

  /** Asking whether a directory is known, of a walk all of whose directories are, changes nothing, and no more does
      ceasing to ask. */
  lemma {:induction false} RingKnown(cfg: Config, dirs: set<Path>, c: Config, c': Config, cells: nat,
                                     before: seq<Entry>, path: Path, node: Node, depth: nat, pdev: u64)
    requires Asks(cfg, dirs, c) && Asks(cfg, dirs, c')
    requires cells > 0 && AllKnown(RingVisit(c, cells, before, path, node, depth, pdev).log, dirs)
    ensures RingVisit(c', cells, before, path, node, depth, pdev)
         == RingVisit(c, cells, before, path, node, depth, pdev)
    decreases node, 1
  {
    hide Own, Enters, RingKids, Deep, Knowing;
    var own := Own(c, path, node, depth, pdev);
    assert own.log[0] in RingVisit(c, cells, before, path, node, depth, pdev).log;
    KnownOwn(cfg, dirs, path, node, depth, pdev);
    if Enters(c, path, node, depth, pdev) {
      var kids := RingKids(c, cells, before + own.log, path, node.kids, depth + 1, |before|);
      assert forall e | e in kids.log :: e in own.log + kids.log;
      RingKnownKids(cfg, dirs, c, c', cells, before + own.log, path, node.kids, depth + 1, |before|);
    }
  }

  lemma {:induction false} RingKnownKids(cfg: Config, dirs: set<Path>, c: Config, c': Config, cells: nat,
                                         before: seq<Entry>, dir: Path, kids: Listing, depth: nat, home: nat)
    requires Asks(cfg, dirs, c) && Asks(cfg, dirs, c')
    requires cells > 0 && AllKnown(RingKids(c, cells, before, dir, kids, depth, home).log, dirs)
    ensures RingKids(c', cells, before, dir, kids, depth, home) == RingKids(c, cells, before, dir, kids, depth, home)
    decreases kids, 0
  {
    hide RingVisit, DeviceOf, Join;
    assert c'.exclude == c.exclude == cfg.exclude;
    if kids.Dirent? {
      var path, x := Join(dir, kids.name), DeviceOf(cells, before, home % cells);
      var one := RingOne(c, cells, before, path, kids.stat, depth, x);
      var later := RingKids(c, cells, before + one.log, dir, kids.rest, depth, home);
      assert forall e | e in one.log || e in later.log :: e in one.log + later.log;
      assert RingOne(c', cells, before, path, kids.stat, depth, x) == one by {
        if !cfg.exclude(path) && kids.stat.Present? {
          RingKnown(cfg, dirs, c, c', cells, before, path, kids.stat.node, depth, x);
        }
      }
      hide RingOne, Asks;
      RingKnownKids(cfg, dirs, c, c', cells, before + one.log, dir, kids.rest, depth, home);
    }
  }

  lemma AllDirsKnown(es: seq<Entry>, dirs: set<Path>)
    requires DirPaths(es) <= dirs
    ensures AllKnown(es, dirs)
  {
    forall e | e in es && e.typ == TYPE_DIR ensures e.path in dirs { assert e.path in DirPaths(es); }
  }

  lemma SameAsSame(a: seq<Entry>, b: seq<Entry>, c: seq<Entry>)
    requires SameButTimes(a, c) && SameButTimes(b, c)
    ensures SameButTimes(a, b)
  {
  }

  lemma SameDoNotPart(a: seq<Entry>, b: seq<Entry>, d: Path)
    requires SameButTimes(a, b)
    ensures !Part(a, b, d)
  {
    hide AtOrBelow;
  }

  /** The second walk of a tree whose times have changed, with n cells and against the directories of the first, is
      the first, times apart, exactly when the two numbers of cells give the same walk of the tree. */
  lemma WalkAgain(cfg: Config, m: nat, n: nat, root: Path, tree: Node, later: Node)
    requires m > 0 && n > 0 && WellFormed(tree) && Retimed(tree, later)
    ensures var base := RingScan(Deep(cfg), m, root, tree);
            SameButTimes(base, RingScan(Knowing(cfg, DirPaths(base)), n, root, later))
            <==> WalksAgree(Deep(cfg), m, n, root, tree)
  {
    hide RingVisit, Retimed, DirPaths, WalksAgree, Part, WellFormed, SameButTimes, Deep, Knowing, AllKnown;
    var base, dirs := RingScan(Deep(cfg), m, root, tree), DirPaths(RingScan(Deep(cfg), m, root, tree));
    var there, again := RingScan(Deep(cfg), n, root, tree), RingScan(Deep(cfg), n, root, later);
    var live := RingScan(Knowing(cfg, dirs), n, root, later);
    RingScansAgree(Deep(cfg), m, n, root, tree);
    TopDevice(cfg, tree, later);
    NothingSame();
    RetimedRing(Deep(cfg), n, [], [], root, tree, later, 0, tree.info.dev);
    if WalksAgree(Deep(cfg), m, n, root, tree) {
      SameDirs(base, again);
      AllDirsKnown(again, dirs);
      RingKnown(cfg, dirs, Deep(cfg), Knowing(cfg, dirs), n, [], root, later, 0, later.info.dev);
    }
    if SameButTimes(base, live) {
      SameDirs(base, live);
      AllDirsKnown(live, dirs);
      RingKnown(cfg, dirs, Knowing(cfg, dirs), Deep(cfg), n, [], root, later, 0, later.info.dev);
      SameAsSame(base, there, live);
      SameDoNotPart(base, there, root);
    }
  }

  lemma TopDevice(cfg: Config, a: Node, b: Node)
    requires Retimed(a, b)
    ensures ByPath(Deep(cfg)) && a.info.dev == b.info.dev
  {
  }

  // ---- walks that part are reported differently ------------------------------------------

  /** A path of one list that the other lacks. */
  lemma MergesByPath(base: seq<Entry>, a: seq<Entry>, b: seq<Entry>, e: Entry)
    requires Ordered(base) && Ordered(a) && Ordered(b) && e in a && e.path !in AsMap(b)
    ensures Merge(base, a) != Merge(base, b)
  {
    hide Merge, Ordered, Classify, AsMap;
    var p := e.path;
    MapEntry(a, e);
    var c := if p in AsMap(base) then Removed(AsMap(base)[p]) else Added(e);
    if p in AsMap(base) { InMap(base, p); }
    assert c.path == p;
    MergeMember(base, a, c);
    MergeMember(base, b, c);
  }

  /** An error of one list that the other does not have. */
  lemma MergesByError(base: seq<Entry>, a: seq<Entry>, b: seq<Entry>, e: Entry, f: Entry)
    requires Ordered(base) && Ordered(a) && Ordered(b) && e in a && f in b
    requires e.path == f.path && e.err == [] && f.err != []
    ensures Merge(base, a) != Merge(base, b)
  {
    hide Merge, Ordered, AsMap;
    var p := e.path;
    MapEntry(a, e);
    MapEntry(b, f);
    if p in AsMap(base) { InMap(base, p); }
    var c := if p in AsMap(base) then Changed(AsMap(base)[p], f)[0] else Added(f);
    assert c.path == p && c.now == Some(f);
    hide Classify;
    MergeMember(base, a, c);
    MergeMember(base, b, c);
  }

  /** Where two ordered lists part by path, the smaller path is in one of them only. */
  lemma PartedPath(a: seq<Entry>, b: seq<Entry>, i: nat)
    requires Ordered(a) && Ordered(b) && i < |a| && i <= |b| && a[..i] == b[..i]
    requires i < |b| ==> Less(a[i].path, b[i].path)
    ensures a[i].path !in AsMap(b)
  {
    hide Less, AsMap;
    var p := a[i].path;
    MapKeys(b, p);
    forall j | 0 <= j < |b| ensures b[j].path != p {
      StrictTotalOrder(p, p, p);
      if j < i {
        assert b[..i][j] == a[..i][j];
        assert Less(Paths(a)[j], Paths(a)[i]);
      } else if j > i {
        assert Less(Paths(b)[i], Paths(b)[j]);
        LessTransitive(p, b[i].path, b[j].path);
      }
    }
  }

  lemma PartedMerge(base: seq<Entry>, a: seq<Entry>, b: seq<Entry>, d: Path)
    requires Ordered(base) && Ordered(a) && Ordered(b) && Part(a, b, d)
    ensures Merge(base, a) != Merge(base, b)
  {
    hide Merge, Ordered, AsMap, Less, AtOrBelow;
    var i: nat :| PartAt(a, b, d, i);
    if i < |a| && i < |b| && a[i].path == b[i].path {
      if a[i].err == [] {
        MergesByError(base, a, b, a[i], b[i]);
      } else {
        MergesByError(base, b, a, b[i], a[i]);
      }
    } else if i < |a| && (i < |b| ==> Less(a[i].path, b[i].path)) {
      PartedPath(a, b, i);
      MergesByPath(base, a, b, a[i]);
    } else {
      if i < |a| { StrictTotalOrder(a[i].path, b[i].path, b[i].path); }
      PartedPath(b, a, i);
      MergesByPath(base, b, a, b[i]);
    }
  }

  /** The comparison reports deep mode's changes less what pruning leaves out exactly when no late read of the live
      walk changes a decision that shows. */
  lemma PruningIsExact(cfg: Config, cells: nat, base: seq<Entry>, root: Path, tree: Node)
    requires cells > 0 && Fingerprint(base, root) && root != [] && WellFormed(tree)
    ensures var dirs, deep := DirPaths(base), Scan(Deep(cfg), root, tree);
            Merge(base, RingScan(Knowing(cfg, dirs), cells, root, tree))
            == Visible(NewDirs(base, deep), dirs, Merge(base, deep))
            <==> FaithfulWalk(Knowing(cfg, dirs), cells, root, tree)
  {
    hide Scan, RingVisit, Fingerprint, WellFormed, Ordered, Merge, Visible, FaithfulWalk, Part, DirPaths, NewDirs;
    var known := Knowing(cfg, DirPaths(base));
    PruningIsSound(cfg, base, root, tree);
    FingerprintFacts(base, root);
    RingScanIsScan(known, cells, root, tree);
    ScanOrdered(known, root, tree);
    RingVisitOrdered(known, cells, [], root, tree, 0, tree.info.dev);
    if !FaithfulWalk(known, cells, root, tree) {
      PartedMerge(base, Scan(known, root, tree), RingScan(known, cells, root, tree), root);
    }
  }
}
