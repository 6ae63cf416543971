/** When the walk with recycled cells is the sequential walk: an exact condition, and cases that meet it. */
module RingFaithful {
  import opened Bytes
  import opened Canon
  import opened ScanEntry
  import opened Walk
  import opened RingWalk
  import opened RingAgree

  // ---- when it is ------------------------------------------------------------------------

  /** Along the sequential walk, no decision to enter a directory that is not hollow changes when the parent's
      device is replaced by the one its cell holds by then. */
  ghost predicate Faithful(cfg: Config, cells: nat, before: seq<Entry>, path: Path, node: Node, depth: nat, pdev: u64,
                           cellDev: u64)
    requires cells > 0
    decreases node, 1
  {
    && (Enters(cfg, path, node, depth, pdev) == Enters(cfg, path, node, depth, cellDev) || Hollow(cfg, path, node))
    && (Enters(cfg, path, node, depth, pdev) && Enters(cfg, path, node, depth, cellDev) ==>
          KidsFaithful(cfg, cells, before + Own(cfg, path, node, depth, pdev).log, path, node.kids, depth + 1, |before|,
                       node.info.dev))
  }

  ghost predicate KidsFaithful(cfg: Config, cells: nat, before: seq<Entry>, dir: Path, kids: Listing, depth: nat,
                               home: nat, pdev: u64)
    requires cells > 0
    decreases kids, 0
  {
    kids.Dirent? ==>
      var path := Join(dir, kids.name);
      && (!cfg.exclude(path) && kids.stat.Present? ==>
            Faithful(cfg, cells, before, path, kids.stat.node, depth, pdev, DeviceOf(cells, before, home % cells)))
      && KidsFaithful(cfg, cells, before + FinishAll(cfg, VisitOne(cfg, path, kids.stat, depth, pdev)), dir, kids.rest,
                      depth, home, pdev)
  }

  ghost predicate FaithfulWalk(cfg: Config, cells: nat, root: Path, tree: Node)
    requires cells > 0
  {
    Faithful(cfg, cells, [], root, tree, 0, tree.info.dev, tree.info.dev)
  }

  lemma OwnFinished(cfg: Config, path: Path, node: Node, depth: nat, pdev: u64)
    ensures Own(cfg, path, node, depth, pdev).log == FinishAll(cfg, [Draft(cfg, path, node, depth, pdev)])
  {
    hide Draft, Finished;
  }

  lemma VisitFinished(cfg: Config, path: Path, node: Node, depth: nat, pdev: u64)
    ensures FinishAll(cfg, Visit(cfg, path, node, depth, pdev))
         == Own(cfg, path, node, depth, pdev).log
            + if Enters(cfg, path, node, depth, pdev)
              then FinishAll(cfg, VisitKids(cfg, path, node.kids, depth + 1, node.info.dev)) else []
  {
    hide Own, Enters, FinishAll, VisitKids, Draft;
    OwnFinished(cfg, path, node, depth, pdev);
    FinishAllConcat(cfg, [Draft(cfg, path, node, depth, pdev)],
        VisitKids(cfg, path, node.kids, depth + 1, node.info.dev));
    var d := [Draft(cfg, path, node, depth, pdev)];
    assert d + [] == d;
    assert FinishAll(cfg, d) + [] == FinishAll(cfg, d);
  }

  lemma KidsFinished(cfg: Config, dir: Path, kids: Listing, depth: nat, pdev: u64)
    requires kids.Dirent?
    ensures FinishAll(cfg, VisitKids(cfg, dir, kids, depth, pdev))
         == FinishAll(cfg, VisitOne(cfg, Join(dir, kids.name), kids.stat, depth, pdev))
            + FinishAll(cfg, VisitKids(cfg, dir, kids.rest, depth, pdev))
  {
    hide VisitOne, FinishAll, Join;
    FinishAllConcat(cfg, VisitOne(cfg, Join(dir, kids.name), kids.stat, depth, pdev),
                    VisitKids(cfg, dir, kids.rest, depth, pdev));
  }

  lemma FinishedPaths(cfg: Config, es: seq<Entry>)
    ensures |FinishAll(cfg, es)| == |es| && forall i | 0 <= i < |es| :: FinishAll(cfg, es)[i].path == es[i].path
  {
    hide Finished;
    forall i | 0 <= i < |es| ensures FinishAll(cfg, es)[i].path == es[i].path { FinishedKeeps(cfg, es[i]); }
  }

  // ---- a walk whose cells never come round ------------------------------------------------

  /** A cell that has not come round again still holds its first entry. */
  lemma {:induction false} NotRecycled(cells: nat, before: seq<Entry>, home: nat)
    requires home < |before| <= cells
    ensures DeviceOf(cells, before, home % cells) == before[home].dev
  {
    var n := |before| - 1;
    SmallModulus(home, cells);
    SmallModulus(n, cells);
    if home < n { NotRecycled(cells, before[..n], home); }
  }

  lemma SmallModulus(n: nat, m: nat)
    requires n < m
    ensures n % m == n
  {
  }

  /** With a cell for every entry the walk is the sequential one. */
  lemma {:induction false} FreshVisit(cfg: Config, cells: nat, before: seq<Entry>, path: Path, node: Node, depth: nat,
                                      pdev: u64)
    requires cells > 0 && |before| + |Visit(cfg, path, node, depth, pdev)| <= cells
    ensures RingVisit(cfg, cells, before, path, node, depth, pdev).log
         == FinishAll(cfg, Visit(cfg, path, node, depth, pdev))
    decreases node, 1
  {
    hide Own, Enters, VisitKids, RingKids, FinishAll, Draft;
    var own := Own(cfg, path, node, depth, pdev).log;
    VisitFinished(cfg, path, node, depth, pdev);
    assert own + [] == own;
    if Enters(cfg, path, node, depth, pdev) {
      assert (before + own)[|before|] == own[0];
      FreshKids(cfg, cells, before + own, path, node.kids, depth + 1, |before|, node.info.dev);
    }
  }

  lemma {:induction false} FreshKids(cfg: Config, cells: nat, before: seq<Entry>, dir: Path, kids: Listing, depth: nat,
                                     home: nat, pdev: u64)
    requires cells > 0 && home < |before| && before[home].dev == pdev
    requires |before| + |VisitKids(cfg, dir, kids, depth, pdev)| <= cells
    ensures RingKids(cfg, cells, before, dir, kids, depth, home).log
         == FinishAll(cfg, VisitKids(cfg, dir, kids, depth, pdev))
    decreases kids, 0
  {
    hide DeviceOf, Join, FinishAll, Visit, RingVisit;
    if kids.End? {
      NothingFinished(cfg);
    } else {
      var path := Join(dir, kids.name);
      var one := VisitOne(cfg, path, kids.stat, depth, pdev);
      NotRecycled(cells, before, home);
      KidsFinished(cfg, dir, kids, depth, pdev);
      FreshOne(cfg, cells, before, path, kids.stat, depth, pdev);
      FinishedPaths(cfg, one);
      hide VisitOne, RingOne;
      FreshKids(cfg, cells, before + FinishAll(cfg, one), dir, kids.rest, depth, home, pdev);
    }
  }

  lemma {:induction false} FreshOne(cfg: Config, cells: nat, before: seq<Entry>, path: Path, stat: Stat, depth: nat,
                                    pdev: u64)
    requires cells > 0 && |before| + |VisitOne(cfg, path, stat, depth, pdev)| <= cells
    ensures RingOne(cfg, cells, before, path, stat, depth, pdev).log
         == FinishAll(cfg, VisitOne(cfg, path, stat, depth, pdev))
    decreases stat, 2
  {
    hide RingVisit, Visit;
    if !cfg.exclude(path) && stat.Present? { FreshVisit(cfg, cells, before, path, stat.node, depth, pdev); }
  }

  /** To be faithful is to agree with such a walk. */
  lemma {:induction false} FaithfulIsAgree(cfg: Config, all: nat, cells: nat, before: seq<Entry>, path: Path,
                                           node: Node, depth: nat, pdev: u64, cellDev: u64)
    requires all > 0 && cells > 0 && |before| + |Visit(cfg, path, node, depth, pdev)| <= all
    ensures Faithful(cfg, cells, before, path, node, depth, pdev, cellDev)
       <==> Agree(cfg, all, cells, before, path, node, depth, pdev, cellDev)
    decreases node, 1
  {
    hide Own, Enters, VisitKids, KidsFaithful, KidsAgree, Hollow, Draft;
    var own := Own(cfg, path, node, depth, pdev).log;
    if Enters(cfg, path, node, depth, pdev) {
      assert (before + own)[|before|] == own[0];
      KidsFaithfulAgree(cfg, all, cells, before + own, path, node.kids, depth + 1, |before|, node.info.dev);
    }
  }

  lemma {:induction false} KidsFaithfulAgree(cfg: Config, all: nat, cells: nat, before: seq<Entry>, dir: Path,
                                             kids: Listing, depth: nat, home: nat, pdev: u64)
    requires all > 0 && cells > 0 && home < |before| && before[home].dev == pdev
    requires |before| + |VisitKids(cfg, dir, kids, depth, pdev)| <= all
    ensures KidsFaithful(cfg, cells, before, dir, kids, depth, home, pdev)
       <==> KidsAgree(cfg, all, cells, before, dir, kids, depth, home)
    decreases kids, 0
  {
    hide DeviceOf, Join, FinishAll, Visit, RingVisit, Faithful, Agree;
    if kids.Dirent? {
      var path, y := Join(dir, kids.name), DeviceOf(cells, before, home % cells);
      var one := VisitOne(cfg, path, kids.stat, depth, pdev);
      NotRecycled(all, before, home);
      FreshOne(cfg, all, before, path, kids.stat, depth, pdev);
      FinishedPaths(cfg, one);
      if !cfg.exclude(path) && kids.stat.Present? {
        FaithfulIsAgree(cfg, all, cells, before, path, kids.stat.node, depth, pdev, y);
      }
      hide VisitOne, RingOne;
      KidsFaithfulAgree(cfg, all, cells, before + FinishAll(cfg, one), dir, kids.rest, depth, home, pdev);
    }
  }

  lemma FreshScan(cfg: Config, cells: nat, root: Path, tree: Node)
    requires cells > 0 && |Scan(cfg, root, tree)| <= cells
    ensures RingScan(cfg, cells, root, tree) == Scan(cfg, root, tree)
  {
    hide RingVisit, Visit;
    FreshVisit(cfg, cells, [], root, tree, 0, tree.info.dev);
  }

  /** The walk the code performs is the sequential walk exactly when every decision that matters comes out
      the same from the recycled cell as from the parent. */
  lemma RingScanIsScan(cfg: Config, cells: nat, root: Path, tree: Node)
    requires cells > 0 && WellFormed(tree)
    ensures RingScan(cfg, cells, root, tree) == Scan(cfg, root, tree) <==> FaithfulWalk(cfg, cells, root, tree)
    ensures !FaithfulWalk(cfg, cells, root, tree) ==>
              Part(Scan(cfg, root, tree), RingScan(cfg, cells, root, tree), root)
  {
    hide RingVisit, Visit, Faithful, Agree, Part, WellFormed;
    var all := |Scan(cfg, root, tree)| + 1;
    FreshScan(cfg, all, root, tree);
    FaithfulIsAgree(cfg, all, cells, [], root, tree, 0, tree.info.dev, tree.info.dev);
    RingScansAgree(cfg, all, cells, root, tree);
  }

  // ---- cases in which it is --------------------------------------------------------------

  /** The parent's device decides nothing, by MountAll or because every filesystem is local. */
  lemma {:induction false} AllCrossedFaithful(cfg: Config, cells: nat, before: seq<Entry>, path: Path, node: Node,
                                              depth: nat, pdev: u64, cellDev: u64)
    requires cells > 0 && forall p: Path :: CrossMount(cfg, p)
    ensures Faithful(cfg, cells, before, path, node, depth, pdev, cellDev)
    decreases node, 1
  {
    hide Own, CrossMount;
    assert CrossMount(cfg, path);
    AllCrossedKids(cfg, cells, before + Own(cfg, path, node, depth, pdev).log, path, node.kids, depth + 1, |before|,
                   node.info.dev);
  }

  lemma {:induction false} AllCrossedKids(cfg: Config, cells: nat, before: seq<Entry>, dir: Path, kids: Listing,
                                          depth: nat, home: nat, pdev: u64)
    requires cells > 0 && forall p: Path :: CrossMount(cfg, p)
    ensures KidsFaithful(cfg, cells, before, dir, kids, depth, home, pdev)
    decreases kids, 0
  {
    hide DeviceOf, Join, CrossMount, FinishAll, VisitOne, Faithful;
    if kids.Dirent? {
      var path := Join(dir, kids.name);
      if kids.stat.Present? {
        AllCrossedFaithful(cfg, cells, before, path, kids.stat.node, depth, pdev,
            DeviceOf(cells, before, home % cells));
      }
      AllCrossedKids(cfg, cells, before + FinishAll(cfg, VisitOne(cfg, path, kids.stat, depth, pdev)), dir, kids.rest,
                     depth, home, pdev);
    }
  }

  /** A walk of no more entries than there are cells never reads a recycled one. */
  lemma {:induction false} SmallFaithful(cfg: Config, cells: nat, before: seq<Entry>, path: Path, node: Node,
                                         depth: nat, pdev: u64)
    requires cells > 0 && |before| + |Visit(cfg, path, node, depth, pdev)| <= cells
    ensures Faithful(cfg, cells, before, path, node, depth, pdev, pdev)
    decreases node, 1
  {
    hide Own, Enters, VisitKids, KidsFaithful;
    var own := Own(cfg, path, node, depth, pdev).log;
    if Enters(cfg, path, node, depth, pdev) {
      assert (before + own)[|before|] == own[0];
      SmallKidsFaithful(cfg, cells, before + own, path, node.kids, depth + 1, |before|, node.info.dev);
    }
  }

  lemma {:induction false} SmallKidsFaithful(cfg: Config, cells: nat, before: seq<Entry>, dir: Path, kids: Listing,
                                             depth: nat, home: nat, pdev: u64)
    requires cells > 0 && home < |before| && before[home].dev == pdev
    requires |before| + |VisitKids(cfg, dir, kids, depth, pdev)| <= cells
    ensures KidsFaithful(cfg, cells, before, dir, kids, depth, home, pdev)
    decreases kids, 0
  {
    hide DeviceOf, Join, FinishAll, Visit, Faithful;
    if kids.Dirent? {
      var path := Join(dir, kids.name);
      var one := VisitOne(cfg, path, kids.stat, depth, pdev);
      NotRecycled(cells, before, home);
      FinishedPaths(cfg, one);
      if !cfg.exclude(path) && kids.stat.Present? {
        SmallFaithful(cfg, cells, before, path, kids.stat.node, depth, pdev);
      }
      hide VisitOne;
      SmallKidsFaithful(cfg, cells, before + FinishAll(cfg, one), dir, kids.rest, depth, home, pdev);
    }
  }

  function Devices(node: Node): set<u64>
    decreases node, 1
  {
    {node.info.dev} + ListDevices(node.kids)
  }

  function ListDevices(kids: Listing): set<u64>
    decreases kids, 0
  {
    match kids
    case End => {}
    case Dirent(_, stat, rest) => (if stat.Gone? then {0} else Devices(stat.node)) + ListDevices(rest)
  }

  ghost predicate AllOn(es: seq<Entry>, d: u64) {
    forall e | e in es :: e.dev == d
  }

  lemma {:induction false} OnlyDevice(cells: nat, before: seq<Entry>, home: nat, d: u64)
    requires cells > 0 && home < |before| && AllOn(before, d)
    ensures DeviceOf(cells, before, home % cells) == d
  {
    var n := |before| - 1;
    assert before[n] in before;
    if n % cells != home % cells {
      assert forall e | e in before[..n] :: e in before;
      OnlyDevice(cells, before[..n], home, d);
    }
  }

  lemma {:induction false} VisitDevices(cfg: Config, path: Path, node: Node, depth: nat, pdev: u64, d: u64)
    requires Devices(node) <= {d}
    ensures AllOn(Visit(cfg, path, node, depth, pdev), d)
    decreases node, 1
  {
    hide Draft, Enters;
    KidsDevices(cfg, path, node.kids, depth + 1, node.info.dev, d);
  }

  lemma {:induction false} KidsDevices(cfg: Config, dir: Path, kids: Listing, depth: nat, pdev: u64, d: u64)
    requires ListDevices(kids) <= {d}
    ensures AllOn(VisitKids(cfg, dir, kids, depth, pdev), d)
    decreases kids, 0
  {
    hide Visit, Join;
    if kids.Dirent? {
      KidsDevices(cfg, dir, kids.rest, depth, pdev, d);
      if kids.stat.Present? {
        VisitDevices(cfg, Join(dir, kids.name), kids.stat.node, depth, pdev, d);
      } else {
        assert 0 in ListDevices(kids);
      }
    }
  }

  lemma FinishedOn(cfg: Config, es: seq<Entry>, d: u64)
    requires AllOn(es, d)
    ensures AllOn(FinishAll(cfg, es), d)
  {
    hide Finished;
    forall f | f in FinishAll(cfg, es) ensures f.dev == d {
      var i :| 0 <= i < |es| && FinishAll(cfg, es)[i] == f;
      FinishedKeeps(cfg, es[i]);
      assert es[i] in es;
    }
  }

  /** All on one device, and nothing vanishes. */
  lemma {:induction false} OneDeviceFaithful(cfg: Config, cells: nat, before: seq<Entry>, path: Path, node: Node,
                                             depth: nat, d: u64)
    requires cells > 0 && Devices(node) <= {d} && AllOn(before, d)
    ensures Faithful(cfg, cells, before, path, node, depth, d, d)
    decreases node, 1
  {
    hide Own, Enters, KidsFaithful;
    assert node.info.dev in Devices(node);
    var own := Own(cfg, path, node, depth, d).log;
    assert own == [own[0]];
    OneDeviceKids(cfg, cells, before + own, path, node.kids, depth + 1, |before|, d);
  }

  lemma {:induction false} OneDeviceKids(cfg: Config, cells: nat, before: seq<Entry>, dir: Path, kids: Listing,
                                         depth: nat, home: nat, d: u64)
    requires cells > 0 && ListDevices(kids) <= {d} && AllOn(before, d) && home < |before|
    ensures KidsFaithful(cfg, cells, before, dir, kids, depth, home, d)
    decreases kids, 0
  {
    hide DeviceOf, Join, FinishAll, Visit, Faithful;
    if kids.Dirent? {
      var path := Join(dir, kids.name);
      var one := VisitOne(cfg, path, kids.stat, depth, d);
      OnlyDevice(cells, before, home, d);
      if kids.stat.Present? {
        OneDeviceFaithful(cfg, cells, before, path, kids.stat.node, depth, d);
        VisitDevices(cfg, path, kids.stat.node, depth, d, d);
      } else {
        assert 0 in ListDevices(kids);
      }
      FinishedOn(cfg, one, d);
      OneDeviceKids(cfg, cells, before + FinishAll(cfg, one), dir, kids.rest, depth, home, d);
    }
  }

  lemma WhenFaithful(cfg: Config, cells: nat, root: Path, tree: Node)
    requires cells > 0
    ensures cfg.mounts == MountAll ==> FaithfulWalk(cfg, cells, root, tree)
    ensures (forall p: Path :: CrossMount(cfg, p)) ==> FaithfulWalk(cfg, cells, root, tree)
    ensures |Scan(cfg, root, tree)| <= cells ==> FaithfulWalk(cfg, cells, root, tree)
    ensures Devices(tree) == {tree.info.dev} ==> FaithfulWalk(cfg, cells, root, tree)
  {
    hide Faithful, Visit;
    if Devices(tree) == {tree.info.dev} { OneDeviceFaithful(cfg, cells, [], root, tree, 0, tree.info.dev); }
    if forall p: Path :: CrossMount(cfg, p) {
      AllCrossedFaithful(cfg, cells, [], root, tree, 0, tree.info.dev, tree.info.dev);
    }
    if |Scan(cfg, root, tree)| <= cells { SmallFaithful(cfg, cells, [], root, tree, 0, tree.info.dev); }
  }
}
