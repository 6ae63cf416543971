/** What a scan says of a tree, in terms of the tree: which directories it enters, and what each entry holds. */
module WalkMeaning {
  import opened Bytes
  import opened Canon
  import opened ScanEntry
  import opened Walk
  import opened RingWalk
  import opened RingAgree
  import opened Pipeline
  import opened PipelineSafety

  // ---- one directory, one entry ----------------------------------------------------------

  /** The reasons not to enter a directory, spelled out: another filesystem that the policy does not cross, the depth
      limit, and Descend. */
  lemma EntersMeans(cfg: Config, path: Path, node: Node, depth: nat, pdev: u64)
    ensures Enters(cfg, path, node, depth, pdev)
       <==> (&& node.info.typ == TYPE_DIR
             && (|| depth == 0
                 || (&& depth < cfg.maxDepth && cfg.descend(StatEntry(path, node))
                     && match cfg.mounts
                        case MountAll => true
                        case MountSame => node.info.dev == pdev
                        case MountLocal => node.info.dev == pdev || cfg.kind(path) == FSLocal)))
    ensures AtBarrier(cfg, path, node, depth, pdev)
       <==> (&& node.info.typ == TYPE_DIR && depth > 0 && node.info.dev != pdev
             && match cfg.mounts
                case MountAll => false
                case MountSame => true
                case MountLocal => cfg.kind(path) != FSLocal)
  {
  }

  /** The entry of a name that was met. */
  ghost function EntryFor(cfg: Config, path: Path, stat: Stat, depth: nat, pdev: u64): (e: Entry)
    ensures e.path == path
  {
    match stat
    case Gone(why) => ErrorEntry(path, why)
    case Present(node) => Own(cfg, path, node, depth, pdev).log[0]
  }

  /** A name that vanished has an entry of its own type, with the reason and nothing else. */
  lemma EntryVanished(cfg: Config, path: Path, why: Bytes, depth: nat, pdev: u64)
    ensures EntryFor(cfg, path, Gone(why), depth, pdev)
         == Entry(path, 33, 0, 0, 0, 0, 0, NO_HASH, false, false, [], 0, 0, 0, why)
  {
  }

  /** Its attributes are those of the object, and its link that of a symbolic link that could be read. */
  lemma EntryAttributes(cfg: Config, path: Path, node: Node, depth: nat, pdev: u64)
    ensures var e, i := EntryFor(cfg, path, Present(node), depth, pdev), node.info;
            && e.typ == i.typ && e.mode == i.mode && e.uid == i.uid && e.gid == i.gid
            && e.size == i.size && e.mtime == i.mtime && e.dev == i.dev && e.ino == i.ino && e.nlink == i.nlink
            && e.link == (if i.typ == TYPE_SYMLINK && node.readlink.Target? then node.readlink.link else [])
  {
    hide MayDescend;
  }

  /** A regular file, when hashing is on: partial exactly when it is over a limit that is set; otherwise it has an
      error exactly when it could not be opened or read, and a digest exactly when it could. */
  lemma EntryContent(cfg: Config, path: Path, node: Node, depth: nat, pdev: u64)
    ensures var e := EntryFor(cfg, path, Present(node), depth, pdev);
            var over := cfg.maxFileSize > 0 && node.info.size > cfg.maxFileSize;
            if node.info.typ == TYPE_FILE && !cfg.noHash then
              && (e.partial <==> over)
              && (e.hashed <==> !over && cfg.content(path).Sum?)
              && e.hash == (if over then NO_HASH
                            else match cfg.content(path) case Sum(digest) => digest case _ => NO_HASH)
              && e.err == (if over then []
                           else match cfg.content(path)
                                case OpenFails(why) => why
                                case ReadFails(why) => why
                                case Sum(_) => [])
            else !e.partial && !e.hashed && e.hash == NO_HASH
  {
    hide MayDescend;
  }

  /** Of anything else the error is that of the link or of the listing, the latter only for a directory entered. */
  lemma EntryError(cfg: Config, path: Path, node: Node, depth: nat, pdev: u64)
    requires node.info.typ != TYPE_FILE || cfg.noHash
    ensures EntryFor(cfg, path, Present(node), depth, pdev).err
         == if node.info.typ == TYPE_SYMLINK && node.readlink.LinkFails? then node.readlink.why
            else if Enters(cfg, path, node, depth, pdev) && node.listErr.Some? then node.listErr.value
            else []
  {
    hide MayDescend;
  }

  // ---- what a walk meets -----------------------------------------------------------------

  /** The walk of this name meets stat at path, at this depth and with pdev as the device read for its parent. */
  ghost predicate Meets(cfg: Config, cells: nat, before: seq<Entry>, top: Path, tree: Stat, topDepth: nat, topDev: u64,
                        path: Path, stat: Stat, depth: nat, pdev: u64)
    requires cells > 0
    decreases tree, 1
  {
    || (path == top && stat == tree && depth == topDepth && pdev == topDev)
    || (&& tree.Present? && Enters(cfg, top, tree.node, topDepth, topDev)
        && MeetsIn(cfg, cells, before + Own(cfg, top, tree.node, topDepth, topDev).log, top, tree.node.kids,
                   topDepth + 1, |before|, path, stat, depth, pdev))
  }

  ghost predicate MeetsIn(cfg: Config, cells: nat, before: seq<Entry>, dir: Path, kids: Listing, kidDepth: nat,
                          home: nat, path: Path, stat: Stat, depth: nat, pdev: u64)
    requires cells > 0
    decreases kids, 0
  {
    kids.Dirent? &&
    var p, x := Join(dir, kids.name), DeviceOf(cells, before, home % cells);
    || (!cfg.exclude(p) && Meets(cfg, cells, before, p, kids.stat, kidDepth, x, path, stat, depth, pdev))
    || MeetsIn(cfg, cells, before + RingOne(cfg, cells, before, p, kids.stat, kidDepth, x).log, dir, kids.rest,
               kidDepth, home, path, stat, depth, pdev)
  }

  ghost function TraceOf(cfg: Config, cells: nat, before: seq<Entry>, path: Path, stat: Stat, depth: nat,
                         pdev: u64): Trace
    requires cells > 0
  {
    match stat
    case Gone(why) => Trace([ErrorEntry(path, why)], [], [])
    case Present(node) => RingVisit(cfg, cells, before, path, node, depth, pdev)
  }

  /** What the walk adds for one thing it meets. */
  ghost predicate Told(cfg: Config, t: Trace, path: Path, stat: Stat, depth: nat, pdev: u64) {
    && EntryFor(cfg, path, stat, depth, pdev) in t.log
    && (path in t.pruned <==>
          stat.Present? && stat.node.info.typ == TYPE_DIR && !Enters(cfg, path, stat.node, depth, pdev))
    && (path in t.barriers <==> stat.Present? && AtBarrier(cfg, path, stat.node, depth, pdev))
  }

  lemma {:induction false} MetIsTold(cfg: Config, cells: nat, before: seq<Entry>, top: Path, tree: Stat, topDepth: nat,
                                     topDev: u64, path: Path, stat: Stat, depth: nat, pdev: u64)
    requires cells > 0 && (tree.Present? ==> WellFormed(tree.node))
    requires Meets(cfg, cells, before, top, tree, topDepth, topDev, path, stat, depth, pdev)
    ensures Told(cfg, TraceOf(cfg, cells, before, top, tree, topDepth, topDev), path, stat, depth, pdev)
    ensures AtOrBelow(path, top) && (stat.Present? ==> WellFormed(stat.node))
    decreases tree, 1
  {
    hide Own, Enters, RingKids, MeetsIn, Below, AtBarrier, Under;
    if tree.Gone? {
    } else {
      var own := Own(cfg, top, tree.node, topDepth, topDev);
      var kids := RingKids(cfg, cells, before + own.log, top, tree.node.kids, topDepth + 1, |before|);
      OwnTrace(cfg, top, tree.node, topDepth, topDev);
      if Enters(cfg, top, tree.node, topDepth, topDev) {
        NotBelowItself(top);
        forall d | d in kids.pruned || d in kids.barriers ensures Below(d, top) {
          PrunedKidsClosed(cfg, cells, before + own.log, top, tree.node.kids, topDepth + 1, |before|, d);
          UnderIsBelow(top, tree.node.kids, d);
        }
        if !(path == top && stat == tree && depth == topDepth && pdev == topDev) {
          MetInIsTold(cfg, cells, before + own.log, top, tree.node.kids, topDepth + 1, |before|, path, stat, depth,
                      pdev);
          UnderIsBelow(top, tree.node.kids, path);
        }
      }
    }
  }

  lemma OwnTrace(cfg: Config, path: Path, node: Node, depth: nat, pdev: u64)
    ensures var own := Own(cfg, path, node, depth, pdev);
            && own.log == [EntryFor(cfg, path, Present(node), depth, pdev)]
            && own.pruned == (if node.info.typ == TYPE_DIR && !Enters(cfg, path, node, depth, pdev) then [path] else [])
            && own.barriers == (if AtBarrier(cfg, path, node, depth, pdev) then [path] else [])
    ensures AtBarrier(cfg, path, node, depth, pdev) || Enters(cfg, path, node, depth, pdev) ==>
              node.info.typ == TYPE_DIR
    ensures AtBarrier(cfg, path, node, depth, pdev) ==> !Enters(cfg, path, node, depth, pdev)
  {
    hide Draft, Finished;
  }

  lemma {:induction false} MetInIsTold(cfg: Config, cells: nat, before: seq<Entry>, dir: Path, kids: Listing,
                                       kidDepth: nat, home: nat, path: Path, stat: Stat, depth: nat, pdev: u64)
    requires cells > 0 && Listed(kids)
    requires MeetsIn(cfg, cells, before, dir, kids, kidDepth, home, path, stat, depth, pdev)
    ensures Told(cfg, RingKids(cfg, cells, before, dir, kids, kidDepth, home), path, stat, depth, pdev)
    ensures Under(dir, kids, path) && (stat.Present? ==> WellFormed(stat.node))
    decreases kids, 0
  {
    hide RingVisit, Own, Enters, Below, AtBarrier, Join, CompareNames, DeviceOf, Meets, EntryFor, Less;
    var p, x := Join(dir, kids.name), DeviceOf(cells, before, home % cells);
    var one := RingOne(cfg, cells, before, p, kids.stat, kidDepth, x);
    var later := RingKids(cfg, cells, before + one.log, dir, kids.rest, kidDepth, home);
    forall d | d in one.pruned || d in one.barriers ensures AtOrBelow(d, p) {
      NothingBelowPruned(cfg, cells, before, p, kids.stat.node, kidDepth, x, d);
    }
    forall d | d in later.pruned || d in later.barriers ensures Under(dir, kids.rest, d) && !AtOrBelow(d, p) {
      PrunedKidsClosed(cfg, cells, before + one.log, dir, kids.rest, kidDepth, home, d);
      UnderNotWithin(dir, kids, d);
    }
    if !cfg.exclude(p) && Meets(cfg, cells, before, p, kids.stat, kidDepth, x, path, stat, depth, pdev) {
      MetIsTold(cfg, cells, before, p, kids.stat, kidDepth, x, path, stat, depth, pdev);
    } else {
      MetInIsTold(cfg, cells, before + one.log, dir, kids.rest, kidDepth, home, path, stat, depth, pdev);
      UnderNotWithin(dir, kids, path);
    }
  }

  lemma UnderNotWithin(dir: Path, kids: Listing, d: Path)
    requires Listed(kids) && kids.Dirent? && Under(dir, kids.rest, d)
    ensures !AtOrBelow(d, Join(dir, kids.name))
  {
    hide AtOrBelow, Less, Under, Join, CompareNames, WellFormed;
    if AtOrBelow(d, Join(dir, kids.name)) {
      UnderLater(dir, kids.name, d, kids.rest, d);
      StrictTotalOrder(d, d, d);
    }
  }

  /** And it says nothing of anything it does not meet. */
  lemma {:induction false} ToldIsMet(cfg: Config, cells: nat, before: seq<Entry>, top: Path, tree: Stat, topDepth: nat,
                                     topDev: u64, e: Entry) returns (stat: Stat, depth: nat, pdev: u64)
    requires cells > 0 && e in TraceOf(cfg, cells, before, top, tree, topDepth, topDev).log
    ensures Meets(cfg, cells, before, top, tree, topDepth, topDev, e.path, stat, depth, pdev)
    ensures e == EntryFor(cfg, e.path, stat, depth, pdev)
    decreases tree, 1
  {
    hide Own, Enters, RingKids, MeetsIn, AtBarrier;
    stat, depth, pdev := tree, topDepth, topDev;
    if tree.Present? && e != EntryFor(cfg, top, tree, topDepth, topDev) {
      OwnTrace(cfg, top, tree.node, topDepth, topDev);
      var own := Own(cfg, top, tree.node, topDepth, topDev).log;
      stat, depth, pdev := ToldInIsMet(cfg, cells, before + own, top, tree.node.kids, topDepth + 1, |before|, e);
    }
  }

  lemma {:induction false} ToldInIsMet(cfg: Config, cells: nat, before: seq<Entry>, dir: Path, kids: Listing,
                                       kidDepth: nat, home: nat, e: Entry) returns (stat: Stat, depth: nat, pdev: u64)
    requires cells > 0 && e in RingKids(cfg, cells, before, dir, kids, kidDepth, home).log
    ensures MeetsIn(cfg, cells, before, dir, kids, kidDepth, home, e.path, stat, depth, pdev)
    ensures e == EntryFor(cfg, e.path, stat, depth, pdev)
    decreases kids, 0
  {
    hide RingVisit, Own, Enters, Join, DeviceOf, Meets, EntryFor;
    var p, x := Join(dir, kids.name), DeviceOf(cells, before, home % cells);
    var one := RingOne(cfg, cells, before, p, kids.stat, kidDepth, x);
    if e in one.log {
      stat, depth, pdev := ToldIsMet(cfg, cells, before, p, kids.stat, kidDepth, x, e);
    } else {
      stat, depth, pdev := ToldInIsMet(cfg, cells, before + one.log, dir, kids.rest, kidDepth, home, e);
    }
  }

  // ---- what a run tells ------------------------------------------------------------------

  ghost predicate WalkMeets(cfg: Config, cells: nat, root: Path, tree: Node, path: Path, stat: Stat, depth: nat,
                            pdev: u64)
    requires cells > 0
  {
    Meets(cfg, cells, [], root, Present(tree), 0, tree.info.dev, path, stat, depth, pdev)
  }

  lemma OnePerPath(es: seq<Entry>, e: Entry, f: Entry)
    requires Ordered(es) && e in es && f in es && e.path == f.path
    ensures e == f
  {
    hide Ordered;
    var i :| 0 <= i < |es| && es[i] == e;
    var j :| 0 <= j < |es| && es[j] == f;
    if i < j { PathsApart(es, i, j); }
    if j < i { PathsApart(es, j, i); }
  }

  lemma PathsApart(es: seq<Entry>, i: nat, j: nat)
    requires Ordered(es) && i < j < |es|
    ensures es[i].path != es[j].path
  {
    hide Less;
    assert Less(Paths(es)[i], Paths(es)[j]);
    StrictTotalOrder(es[i].path, es[j].path, es[j].path);
  }

  /** A walk has one entry for everything it meets, and no other: a name that vanished has the reason alone. */
  lemma ScanTells(cfg: Config, cells: nat, root: Path, tree: Node, e: Entry)
    requires cells > 0 && WellFormed(tree)
    ensures e in RingScan(cfg, cells, root, tree)
       <==> exists stat, depth, pdev ::
              && WalkMeets(cfg, cells, root, tree, e.path, stat, depth, pdev)
              && e == EntryFor(cfg, e.path, stat, depth, pdev)
    ensures forall stat, depth, pdev | WalkMeets(cfg, cells, root, tree, e.path, stat, depth, pdev)
                                       && e in RingScan(cfg, cells, root, tree) ::
              e == EntryFor(cfg, e.path, stat, depth, pdev)
  {
    hide RingVisit, Own, Meets, WellFormed, EntryFor;
    RingVisitOrdered(cfg, cells, [], root, tree, 0, tree.info.dev);
    forall stat, depth, pdev | WalkMeets(cfg, cells, root, tree, e.path, stat, depth, pdev)
      ensures EntryFor(cfg, e.path, stat, depth, pdev) in RingScan(cfg, cells, root, tree)
      ensures e in RingScan(cfg, cells, root, tree) ==> e == EntryFor(cfg, e.path, stat, depth, pdev)
    {
      MetIsTold(cfg, cells, [], root, Present(tree), 0, tree.info.dev, e.path, stat, depth, pdev);
      if e in RingScan(cfg, cells, root, tree) {
        OnePerPath(RingScan(cfg, cells, root, tree), e, EntryFor(cfg, e.path, stat, depth, pdev));
      }
    }
    if e in RingScan(cfg, cells, root, tree) {
      var stat, depth, pdev := ToldIsMet(cfg, cells, [], root, Present(tree), 0, tree.info.dev, e);
      assert WalkMeets(cfg, cells, root, tree, e.path, stat, depth, pdev);
    }
  }

  /** Everything emit was handed in any run is an entry of the walk. */
  lemma EmittedIsWalked(setup: Setup, run: seq<Step>)
    requires setup.jobs > 0 && Legal(setup, Init(setup), run)
    ensures forall e | e in Run(setup, Init(setup), run).emitted ::
              e in RingScan(setup.cfg, Cells(setup), setup.root, setup.tree)
  {
    hide Init, Legal, Run, RingVisit, WalkResult;
    WalkIsRingWalk(setup, run);
  }

  /** A regular file in any run, when hashing is on, by the limit and by what its content turned out to be. */
  lemma FileInRun(setup: Setup, run: seq<Step>, e: Entry, node: Node, depth: nat, pdev: u64)
    requires setup.jobs > 0 && WellFormed(setup.tree) && Legal(setup, Init(setup), run)
    requires WalkMeets(setup.cfg, Cells(setup), setup.root, setup.tree, e.path, Present(node), depth, pdev)
    requires e in Run(setup, Init(setup), run).emitted && node.info.typ == TYPE_FILE && !setup.cfg.noHash
    ensures var over := setup.cfg.maxFileSize > 0 && node.info.size > setup.cfg.maxFileSize;
            var content := setup.cfg.content(e.path);
            && e.typ == TYPE_FILE && e.size == node.info.size
            && (e.partial <==> over)
            && (e.hashed <==> !over && content.Sum?)
            && (e.hashed ==> e.hash == content.digest)
            && (!over ==> e.err == match content
                                   case OpenFails(why) => why
                                   case ReadFails(why) => why
                                   case Sum(_) => [])
            && (over ==> e.err == [])
  {
    hide Init, Legal, Run, RingVisit, Meets, WellFormed, EntryFor;
    EmittedIsWalked(setup, run);
    ScanTells(setup.cfg, Cells(setup), setup.root, setup.tree, e);
    EntryAttributes(setup.cfg, e.path, node, depth, pdev);
    EntryContent(setup.cfg, e.path, node, depth, pdev);
  }

  /**
   * A directory met by any run, other than the root. When its device is not that read for its parent, and the policy
   * is to stay on one filesystem or to cross to local ones only and it is not one, nothing below it is ever emitted,
   * nor below one at the depth limit or refused by Descend. A run that returns nil has counted it as pruned exactly
   * for one of those three reasons, and noted it exactly for the first.
   */
  lemma DirectoryInRun(setup: Setup, run: seq<Step>, path: Path, node: Node, depth: nat, pdev: u64)
    requires setup.jobs > 0 && WellFormed(setup.tree) && Legal(setup, Init(setup), run)
    requires WalkMeets(setup.cfg, Cells(setup), setup.root, setup.tree, path, Present(node), depth, pdev)
    requires node.info.typ == TYPE_DIR && depth > 0
    ensures var s, cfg := Run(setup, Init(setup), run), setup.cfg;
            var foreign := node.info.dev != pdev
                           && (cfg.mounts == MountSame || (cfg.mounts == MountLocal && cfg.kind(path) != FSLocal));
            var refused := foreign || depth >= cfg.maxDepth || !cfg.descend(StatEntry(path, node));
            && (refused ==> forall e | e in s.emitted :: !Below(e.path, path))
            && (s.consumer.Returned? && WalkResult(s) == Nil ==>
                  (path in s.pruned <==> refused) && (path in s.barriers <==> foreign))
  {
    hide Init, Legal, Run, RingVisit, Meets, WellFormed, EntryFor, Below, WalkResult, Own, StatEntry;
    var cfg, cells := setup.cfg, Cells(setup);
    EmittedIsWalked(setup, run);
    WalkIsRingWalk(setup, run);
    MetIsTold(cfg, cells, [], setup.root, Present(setup.tree), 0, setup.tree.info.dev, path, Present(node), depth,
              pdev);
    EntersMeans(cfg, path, node, depth, pdev);
    NothingBelowPruned(cfg, cells, [], setup.root, setup.tree, 0, setup.tree.info.dev, path);
  }
}
