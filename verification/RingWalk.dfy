/**
 * The walk as the code performs it: a directory's device is read from its reorder-buffer cell after the cell
 * has been given away (internal/scan/walk.go line 306), so a child is compared with whatever entry filled
 * that cell last. Cells are filled in turn, so that is the last entry, among those committed so far, at the
 * parent's position modulo the number of cells.
 */
module RingWalk {
  import opened Bytes
  import opened Canon
  import opened ScanEntry
  import opened Walk

  const MAX_SKIPPED_MOUNTS: nat := 20

  // ---- specification ---------------------------------------------------------------------

  /** What a walk adds: entries with hashing applied, directories counted as pruned, mount points not crossed. */
  datatype Trace = Trace(log: seq<Entry>, pruned: seq<Path>, barriers: seq<Path>)

  const NOTHING: Trace := Trace([], [], [])

  function Plus(a: Trace, b: Trace): Trace { Trace(a.log + b.log, a.pruned + b.pruned, a.barriers + b.barriers) }

  /** The device in a cell: that of the last entry it was given, zero while it is fresh. */
  function DeviceOf(cells: nat, before: seq<Entry>, cell: nat): u64
    requires cells > 0
  {
    if before == [] then 0
    else
      var n := |before| - 1;
      if n % cells == cell then before[n].dev else DeviceOf(cells, before[..n], cell)
  }

  /** A directory refused because of the filesystem it is on. */
  predicate AtBarrier(cfg: Config, path: Path, node: Node, depth: nat, pdev: u64) {
    node.info.typ == TYPE_DIR && depth > 0 && node.info.dev != pdev && !CrossMount(cfg, path)
  }

  /** What a visit adds itself. */
  function Own(cfg: Config, path: Path, node: Node, depth: nat, pdev: u64): (t: Trace)
    ensures |t.log| == 1 && t.log[0].path == path && t.log[0].dev == node.info.dev && t.log[0].typ == node.info.typ
  {
    var e := Draft(cfg, path, node, depth, pdev);
    FinishedKeeps(cfg, e);
    Trace([Finished(cfg, e)],
          if node.info.typ == TYPE_DIR && !Enters(cfg, path, node, depth, pdev) then [path] else [],
          if AtBarrier(cfg, path, node, depth, pdev) then [path] else [])
  }

  /** before is everything committed so far; the root of this visit will be at position |before|. */
  function RingVisit(cfg: Config, cells: nat, before: seq<Entry>, path: Path, node: Node, depth: nat, pdev: u64): Trace
    requires cells > 0
    decreases node, 1
  {
    var own := Own(cfg, path, node, depth, pdev);
    if Enters(cfg, path, node, depth, pdev)
    then Plus(own, RingKids(cfg, cells, before + own.log, path, node.kids, depth + 1, |before|))
    else own
  }

  /** home is the position of the directory's own entry. */
  function RingKids(cfg: Config, cells: nat, before: seq<Entry>, dir: Path, kids: Listing, depth: nat, home: nat): Trace
    requires cells > 0
    decreases kids, 0
  {
    match kids
    case End => NOTHING
    case Dirent(name, stat, rest) =>
      var one := RingOne(cfg, cells, before, Join(dir, name), stat, depth, DeviceOf(cells, before, home % cells));
      Plus(one, RingKids(cfg, cells, before + one.log, dir, rest, depth, home))
  }

  function RingOne(cfg: Config, cells: nat, before: seq<Entry>, path: Path, stat: Stat, depth: nat, pdev: u64): Trace
    requires cells > 0
    decreases stat, 2
  {
    if cfg.exclude(path) then NOTHING
    else
      match stat
      case Gone(why) => Trace([ErrorEntry(path, why)], [], [])
      case Present(node) => RingVisit(cfg, cells, before, path, node, depth, pdev)
  }

  function RingTrace(cfg: Config, cells: nat, root: Path, tree: Node): Trace
    requires cells > 0
  {
    RingVisit(cfg, cells, [], root, tree, 0, tree.info.dev)
  }

  function RingScan(cfg: Config, cells: nat, root: Path, tree: Node): seq<Entry>
    requires cells > 0
  {
    RingTrace(cfg, cells, root, tree).log
  }

  lemma PlusLaws(a: Trace, b: Trace, c: Trace)
    ensures Plus(Plus(a, b), c) == Plus(a, Plus(b, c))
    ensures Plus(NOTHING, a) == a && Plus(a, NOTHING) == a
  {
  }

  // ---- inside and in order ---------------------------------------------------------------

  /** At or below one of the names of a listing. */
  ghost predicate Under(dir: Path, kids: Listing, x: Path) {
    kids.Dirent? && (AtOrBelow(x, Join(dir, kids.name)) || Under(dir, kids.rest, x))
  }

  lemma {:induction false} RingVisitInside(cfg: Config, cells: nat, before: seq<Entry>, path: Path, node: Node,
                                           depth: nat, pdev: u64)
    requires cells > 0 && WellFormed(node)
    ensures AllAtOrBelow(RingVisit(cfg, cells, before, path, node, depth, pdev).log, path)
    decreases node, 1
  {
    hide Own, Enters, Below, AtOrBelow, RingKids, DeviceOf;
    var own := Own(cfg, path, node, depth, pdev);
    assert AtOrBelow(path, path) by { SelfAtOrBelow(path); }
    if Enters(cfg, path, node, depth, pdev) {
      var kids := RingKids(cfg, cells, before + own.log, path, node.kids, depth + 1, |before|);
      RingKidsUnder(cfg, cells, before + own.log, path, node.kids, depth + 1, |before|);
      forall e | e in kids.log ensures AtOrBelow(e.path, path) { UnderIsBelow(path, node.kids, e.path); }
    }
  }

  lemma SelfAtOrBelow(d: Path)
    ensures AtOrBelow(d, d)
  {
  }

  lemma {:induction false} UnderIsBelow(dir: Path, kids: Listing, x: Path)
    requires Listed(kids) && Under(dir, kids, x)
    ensures Below(x, dir) && AtOrBelow(x, dir)
  {
    hide Below, CompareNames, WellFormed;
    if Under(dir, kids.rest, x) {
      UnderIsBelow(dir, kids.rest, x);
    } else {
      JoinBelow(dir, kids.name);
      if x != Join(dir, kids.name) { BelowTransitive(x, Join(dir, kids.name), dir); }
    }
  }

  lemma {:induction false} RingKidsUnder(cfg: Config, cells: nat, before: seq<Entry>, dir: Path, kids: Listing,
                                         depth: nat, home: nat)
    requires cells > 0 && Listed(kids)
    ensures forall e | e in RingKids(cfg, cells, before, dir, kids, depth, home).log :: Under(dir, kids, e.path)
    decreases kids, 0
  {
    hide RingVisit, AtOrBelow, DeviceOf, Join, CompareNames;
    if kids.Dirent? {
      var path, x := Join(dir, kids.name), DeviceOf(cells, before, home % cells);
      var one := RingOne(cfg, cells, before, path, kids.stat, depth, x);
      RingOneInside(cfg, cells, before, path, kids.stat, depth, x);
      RingKidsUnder(cfg, cells, before + one.log, dir, kids.rest, depth, home);
    }
  }

  lemma {:induction false} RingOneInside(cfg: Config, cells: nat, before: seq<Entry>, path: Path, stat: Stat,
                                         depth: nat, pdev: u64)
    requires cells > 0 && (stat.Present? ==> WellFormed(stat.node))
    ensures AllAtOrBelow(RingOne(cfg, cells, before, path, stat, depth, pdev).log, path)
    decreases stat, 2
  {
    hide RingVisit, Below;
    if stat.Present? { RingVisitInside(cfg, cells, before, path, stat.node, depth, pdev); }
  }

  /** What is under a later name sorts after everything at or below an earlier one. */
  lemma {:induction false} UnderLater(dir: Path, a: Bytes, x: Path, kids: Listing, y: Path)
    requires Listed(kids) && a != [] && SLASH !in a && AtOrBelow(x, Join(dir, a))
    requires kids.Dirent? ==> CompareNames(a, kids.name) < 0
    requires Under(dir, kids, y)
    ensures Less(x, y)
  {
    hide Below, AtOrBelow, Less, CompareNames, Join, WellFormed;
    if AtOrBelow(y, Join(dir, kids.name)) {
      SiblingSubtreesOrdered(dir, a, kids.name, x, y);
    } else {
      if kids.rest.Dirent? { NamesTransitive(a, kids.name, kids.rest.name); }
      UnderLater(dir, a, x, kids.rest, y);
    }
  }

  /** Whatever the recycled cells hold, the entries come out strictly increasing. */
  lemma {:induction false} RingVisitOrdered(cfg: Config, cells: nat, before: seq<Entry>, path: Path, node: Node,
                                            depth: nat, pdev: u64)
    requires cells > 0 && WellFormed(node)
    ensures Ordered(RingVisit(cfg, cells, before, path, node, depth, pdev).log)
    decreases node, 1
  {
    hide Own, Enters, Below, Less, RingKids, DeviceOf, AtOrBelow;
    var own := Own(cfg, path, node, depth, pdev);
    if Enters(cfg, path, node, depth, pdev) {
      var kids := RingKids(cfg, cells, before + own.log, path, node.kids, depth + 1, |before|);
      RingKidsUnder(cfg, cells, before + own.log, path, node.kids, depth + 1, |before|);
      RingKidsOrdered(cfg, cells, before + own.log, path, node.kids, depth + 1, |before|);
      forall e | e in kids.log ensures Less(path, e.path) {
        UnderIsBelow(path, node.kids, e.path);
        BelowIsAbove(e.path, path);
      }
      hide Ordered;
      assert own.log == [own.log[0]];
      ConsOrdered(own.log[0], kids.log);
    }
  }

  lemma {:induction false} RingKidsOrdered(cfg: Config, cells: nat, before: seq<Entry>, dir: Path, kids: Listing,
                                           depth: nat, home: nat)
    requires cells > 0 && Listed(kids)
    ensures Ordered(RingKids(cfg, cells, before, dir, kids, depth, home).log)
    decreases kids, 0
  {
    hide RingVisit, AtOrBelow, Below, Less, DeviceOf, Join, CompareNames, Under;
    if kids.Dirent? {
      var path, x := Join(dir, kids.name), DeviceOf(cells, before, home % cells);
      var one := RingOne(cfg, cells, before, path, kids.stat, depth, x);
      var later := RingKids(cfg, cells, before + one.log, dir, kids.rest, depth, home);
      RingOneInside(cfg, cells, before, path, kids.stat, depth, x);
      RingOneOrdered(cfg, cells, before, path, kids.stat, depth, x);
      RingKidsUnder(cfg, cells, before + one.log, dir, kids.rest, depth, home);
      RingKidsOrdered(cfg, cells, before + one.log, dir, kids.rest, depth, home);
      hide Ordered;
      forall e, f | e in one.log && f in later.log ensures Less(e.path, f.path) {
        UnderLater(dir, kids.name, e.path, kids.rest, f.path);
      }
      OrderedAppend(one.log, later.log);
    }
  }

  lemma {:induction false} RingOneOrdered(cfg: Config, cells: nat, before: seq<Entry>, path: Path, stat: Stat,
                                          depth: nat, pdev: u64)
    requires cells > 0 && (stat.Present? ==> WellFormed(stat.node))
    ensures Ordered(RingOne(cfg, cells, before, path, stat, depth, pdev).log)
    decreases stat, 2
  {
    hide RingVisit, Less;
    if stat.Present? { RingVisitOrdered(cfg, cells, before, path, stat.node, depth, pdev); }
  }

  // ---- directories counted as pruned -----------------------------------------------------

  /** d was committed as a directory, and nothing below it was. */
  ghost predicate Closed(log: seq<Entry>, d: Path) {
    (exists e :: e in log && e.path == d && e.typ == TYPE_DIR) && forall e | e in log :: !Below(e.path, d)
  }

  lemma ClosedIn(before: seq<Entry>, log: seq<Entry>, after: seq<Entry>, d: Path)
    requires Closed(log, d) && forall e | e in before || e in after :: !Below(e.path, d)
    ensures Closed(before + log + after, d)
  {
    hide Below;
    var e :| e in log && e.path == d && e.typ == TYPE_DIR;
    assert e in before + log + after;
  }

  lemma NotBelowItself(d: Path)
    ensures !Below(d, d)
  {
  }

  lemma AboveNotBelow(d: Path, x: Path)
    requires Below(x, d)
    ensures !Below(d, x)
  {
  }

  lemma AboveThenNotBelow(x: Path, d: Path)
    requires Less(x, d)
    ensures !Below(x, d)
  {
    if Below(x, d) {
      BelowIsAbove(x, d);
      StrictTotalOrder(x, d, x);
    }
  }

  /** The walk commits nothing below a directory it counts as pruned, having committed the directory itself;
      every mount point it notes is one of those. */
  lemma {:induction false} NothingBelowPruned(cfg: Config, cells: nat, before: seq<Entry>, path: Path, node: Node,
                                              depth: nat, pdev: u64, d: Path)
    requires cells > 0 && WellFormed(node)
    ensures var t := RingVisit(cfg, cells, before, path, node, depth, pdev);
            && (d in t.pruned ==> AtOrBelow(d, path) && Closed(t.log, d))
            && (d in t.barriers ==> d in t.pruned)
    decreases node, 1
  {
    hide Below, Enters, RingKids;
    var own := Own(cfg, path, node, depth, pdev);
    BarrierRefuses(cfg, path, node, depth, pdev);
    if Enters(cfg, path, node, depth, pdev) {
      var kids := RingKids(cfg, cells, before + own.log, path, node.kids, depth + 1, |before|);
      PrunedKidsClosed(cfg, cells, before + own.log, path, node.kids, depth + 1, |before|, d);
      hide Own, Closed;
      if d in kids.pruned {
        UnderIsBelow(path, node.kids, d);
        AboveNotBelow(path, d);
        ClosedIn(own.log, kids.log, [], d);
        assert own.log + kids.log + [] == own.log + kids.log;
      }
    } else {
      NotBelowItself(path);
      assert own.log[0] in own.log;
    }
  }

  lemma BarrierRefuses(cfg: Config, path: Path, node: Node, depth: nat, pdev: u64)
    ensures AtBarrier(cfg, path, node, depth, pdev) ==>
              node.info.typ == TYPE_DIR && !Enters(cfg, path, node, depth, pdev)
  {
  }

  lemma {:induction false} PrunedKidsClosed(cfg: Config, cells: nat, before: seq<Entry>, dir: Path, kids: Listing,
                                            depth: nat, home: nat, d: Path)
    requires cells > 0 && Listed(kids)
    ensures var t := RingKids(cfg, cells, before, dir, kids, depth, home);
            && (d in t.pruned ==> Under(dir, kids, d) && Closed(t.log, d))
            && (d in t.barriers ==> d in t.pruned)
    decreases kids, 0
  {
    hide RingVisit, Below, Closed, DeviceOf, Join, CompareNames, Less;
    if kids.Dirent? {
      var path, x := Join(dir, kids.name), DeviceOf(cells, before, home % cells);
      var one := RingOne(cfg, cells, before, path, kids.stat, depth, x);
      var later := RingKids(cfg, cells, before + one.log, dir, kids.rest, depth, home);
      RingOneInside(cfg, cells, before, path, kids.stat, depth, x);
      RingKidsUnder(cfg, cells, before + one.log, dir, kids.rest, depth, home);
      PrunedKidsClosed(cfg, cells, before + one.log, dir, kids.rest, depth, home, d);
      assert (d in one.pruned ==> AtOrBelow(d, path) && Closed(one.log, d))
          && (d in one.barriers ==> d in one.pruned) by {
        if !cfg.exclude(path) && kids.stat.Present? {
          NothingBelowPruned(cfg, cells, before, path, kids.stat.node, depth, x, d);
        }
      }
      hide RingOne, RingKids, Under;
      if d in later.pruned { LaterPruned(dir, kids, one.log, later.log, d); }
      if d in one.pruned { EarlierPruned(dir, kids, one.log, later.log, d); }
    }
  }

  lemma LaterPruned(dir: Path, kids: Listing, one: seq<Entry>, later: seq<Entry>, d: Path)
    requires Listed(kids) && kids.Dirent? && Under(dir, kids.rest, d) && Closed(later, d)
    requires AllAtOrBelow(one, Join(dir, kids.name))
    ensures Closed(one + later, d)
  {
    hide Below, AtOrBelow, Less, Join, CompareNames, Under, Closed, WellFormed;
    forall e | e in one ensures !Below(e.path, d) {
      UnderLater(dir, kids.name, e.path, kids.rest, d);
      AboveThenNotBelow(e.path, d);
    }
    ClosedIn(one, later, [], d);
    assert one + later + [] == one + later;
  }

  lemma EarlierPruned(dir: Path, kids: Listing, one: seq<Entry>, later: seq<Entry>, d: Path)
    requires Listed(kids) && kids.Dirent? && AtOrBelow(d, Join(dir, kids.name)) && Closed(one, d)
    requires forall e | e in later :: Under(dir, kids.rest, e.path)
    ensures Closed(one + later, d)
  {
    hide Below, Less, Join, CompareNames, Under, Closed, WellFormed;
    var p := Join(dir, kids.name);
    forall e | e in later ensures !Below(e.path, d) {
      if Below(e.path, d) {
        if d != p { BelowTransitive(e.path, d, p); }
        UnderLater(dir, kids.name, e.path, kids.rest, e.path);
        StrictTotalOrder(e.path, e.path, e.path);
      }
    }
    ClosedIn([], one, later, d);
    assert [] + one + later == one + later;
  }
}
