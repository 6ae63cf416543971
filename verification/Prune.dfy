/**
 * compare never enters a directory the fingerprint does not know (cmd/osfp/compare.go). What that loses,
 * against entering everything, is exactly the additions below such directories.
 */
module Prune {
  import opened Bytes
  import opened Canon
  import opened ScanEntry
  import opened Walk
  import opened RingWalk
  import opened Classification
  import opened MapDiff

  // ---- the directories a fingerprint knows -----------------------------------------------

  function DirPaths(es: seq<Entry>): set<Path> {
    set e | e in es && e.typ == TYPE_DIR :: e.path
  }

  method LoadDirs(es: seq<Entry>) returns (dirs: set<Path>)
    ensures dirs == DirPaths(es)
  {
    dirs := {};
    for i := 0 to |es|
      invariant dirs == DirPaths(es[..i])
    {
      assert es[..i + 1] == es[..i] + [es[i]];
      if es[i].typ == TYPE_DIR { dirs := dirs + {es[i].path}; }
    }
    assert es[..|es|] == es;
  }

  /** Two cuts of one path at a name boundary are nested. */
  lemma CutsNest(x: Path, u: Path, dir: Path, name: Bytes)
    requires name != [] && SLASH !in name && dir != []
    requires AtOrBelow(x, Join(dir, name)) && Below(x, u) && Below(u, dir)
    ensures AtOrBelow(u, Join(dir, name))
  {
    var p := Join(dir, name);
    var q := Prefix(dir);
    assert p == q + name;
    assert forall i | |q| <= i < |p| :: p[i] == name[i - |q|] && p[i] != SLASH;
    assert x[..|p|] == p && x[..|u|] == u;
    assert forall i | 0 <= i < |p| :: x[i] == p[i];
    assert u[..|p|] == p;
    if |p| < |u| { assert u[|p|] == x[|p|]; }
  }

  /** Every recorded path other than the root has its ancestors recorded as directories. */
  lemma {:induction false} VisitAncestors(cfg: Config, cells: nat, before: seq<Entry>, path: Path, node: Node,
                                          depth: nat, pdev: u64, e: Entry, u: Path)
    requires cells > 0 && WellFormed(node) && path != []
    requires e in RingVisit(cfg, cells, before, path, node, depth, pdev).log
    requires AtOrBelow(u, path) && Below(e.path, u)
    ensures u in DirPaths(RingVisit(cfg, cells, before, path, node, depth, pdev).log)
    decreases node, 1
  {
    hide Below, Own, MayDescend, RingKids;
    var own, all := Own(cfg, path, node, depth, pdev).log, RingVisit(cfg, cells, before, path, node, depth, pdev).log;
    assert all[0] == own[0];
    if e == all[0] { NotAbove(path, u); }
    var kids := RingKids(cfg, cells, before + own, path, node.kids, depth + 1, |before|).log;
    assert all == own + kids && e in kids;
    if u == path {
      assert all[0] in all;
    } else {
      KidsAncestors(cfg, cells, before + own, path, node.kids, depth + 1, |before|, e, u);
      assert forall d | d in kids :: d in all;
    }
  }

  lemma NotAbove(x: Path, u: Path)
    requires AtOrBelow(u, x)
    ensures !Below(x, u)
  {
  }

  lemma {:induction false} KidsAncestors(cfg: Config, cells: nat, before: seq<Entry>, dir: Path, kids: Listing,
                                         depth: nat, home: nat, e: Entry, u: Path)
    requires cells > 0 && Listed(kids) && dir != []
    requires e in RingKids(cfg, cells, before, dir, kids, depth, home).log
    requires Below(u, dir) && Below(e.path, u)
    ensures u in DirPaths(RingKids(cfg, cells, before, dir, kids, depth, home).log)
    decreases kids, 0
  {
    hide Below, RingVisit, CompareNames, DeviceOf;
    var path, x := Join(dir, kids.name), DeviceOf(cells, before, home % cells);
    var one := RingOne(cfg, cells, before, path, kids.stat, depth, x).log;
    var later := RingKids(cfg, cells, before + one, dir, kids.rest, depth, home).log;
    assert forall d | d in one || d in later :: d in one + later;
    if e in later {
      KidsAncestors(cfg, cells, before + one, dir, kids.rest, depth, home, e, u);
    } else {
      RingOneInside(cfg, cells, before, path, kids.stat, depth, x);
      CutsNest(e.path, u, dir, kids.name);
      if kids.stat.Gone? {
        NotAbove(path, u);
      } else {
        VisitAncestors(cfg, cells, before, path, kids.stat.node, depth, x, e, u);
      }
    }
  }

  lemma FinishedMember(cfg: Config, es: seq<Entry>, f: Entry) returns (e: Entry)
    requires f in FinishAll(cfg, es)
    ensures e in es && f == Finished(cfg, e) && f.path == e.path && f.typ == e.typ
  {
    var i :| 0 <= i < |es| && FinishAll(cfg, es)[i] == f;
    e := es[i];
    FinishedKeeps(cfg, e);
  }

  lemma MemberFinished(cfg: Config, es: seq<Entry>, e: Entry)
    requires e in es
    ensures Finished(cfg, e) in FinishAll(cfg, es)
    ensures Finished(cfg, e).path == e.path && Finished(cfg, e).typ == e.typ
  {
    var i :| 0 <= i < |es| && es[i] == e;
    assert FinishAll(cfg, es)[i] == Finished(cfg, e);
    FinishedKeeps(cfg, e);
  }

  lemma AncestorsRecorded(cfg: Config, cells: nat, root: Path, tree: Node, f: Entry, u: Path)
    requires cells > 0 && WellFormed(tree) && root != [] && f in RingScan(cfg, cells, root, tree)
    requires AtOrBelow(u, root) && Below(f.path, u)
    ensures u in DirPaths(RingScan(cfg, cells, root, tree))
  {
    hide RingVisit, Below, DirPaths;
    VisitAncestors(cfg, cells, [], root, tree, 0, tree.info.dev, f, u);
  }

  // ---- what a pruned walk emits ----------------------------------------------------------

  /** Strictly below one of these directories. */
  predicate Concealed(news: set<Path>, p: Path) {
    exists u | u in news :: Below(p, u)
  }

  /** A directory that is not entered is not listed, so no listing error is seen. */
  function Strip(dirs: set<Path>, e: Entry): (r: Entry)
    ensures r.path == e.path && r.typ == e.typ
  {
    if e.typ == TYPE_DIR && e.path !in dirs then e.(err := []) else e
  }

  function Pruned(news: set<Path>, dirs: set<Path>, es: seq<Entry>): seq<Entry> {
    if es == [] then []
    else (if Concealed(news, es[0].path) then [] else [Strip(dirs, es[0])]) + Pruned(news, dirs, es[1..])
  }

  lemma {:induction false} PrunedConcat(news: set<Path>, dirs: set<Path>, a: seq<Entry>, b: seq<Entry>)
    ensures Pruned(news, dirs, a + b) == Pruned(news, dirs, a) + Pruned(news, dirs, b)
  {
    hide Concealed, Strip;
    if a == [] {
      assert a + b == b;
    } else {
      assert (a + b)[1..] == a[1..] + b;
      PrunedConcat(news, dirs, a[1..], b);
    }
  }

  lemma {:induction false} AllConcealed(news: set<Path>, dirs: set<Path>, es: seq<Entry>)
    requires forall e | e in es :: Concealed(news, e.path)
    ensures Pruned(news, dirs, es) == []
  {
    hide Concealed;
    if es != [] { AllConcealed(news, dirs, es[1..]); }
  }

  lemma PrunedOne(news: set<Path>, dirs: set<Path>, e: Entry, rest: seq<Entry>)
    ensures Pruned(news, dirs, [e] + rest)
        == (if Concealed(news, e.path) then [] else [Strip(dirs, e)]) + Pruned(news, dirs, rest)
  {
    assert ([e] + rest)[1..] == rest;
  }

  /** Stepping down from a directory that is neither new nor concealed. */
  lemma ChildVisible(news: set<Path>, dir: Path, name: Bytes)
    requires name != [] && SLASH !in name && dir != [] && [] !in news
    requires dir !in news && !Concealed(news, dir)
    ensures !Concealed(news, Join(dir, name))
  {
    hide Below, Join;
    forall u | u in news ensures !Below(Join(dir, name), u) {
      if Below(Join(dir, name), u) { ParentAtOrBelow(dir, name, u); }
    }
  }

  lemma ParentAtOrBelow(dir: Path, name: Bytes, u: Path)
    requires name != [] && SLASH !in name && dir != [] && u != [] && Below(Join(dir, name), u)
    ensures AtOrBelow(dir, u)
  {
    var x, q := Join(dir, name), Prefix(dir);
    assert forall i | |q| <= i < |x| :: x[i] == name[i - |q|] && x[i] != SLASH;
    assert x[..|u|] == u && x[..|dir|] == dir;
    if |u| <= |dir| { assert dir[..|u|] == u; }
    if |u| < |dir| { assert dir[|u|] == x[|u|]; }
  }

  /** The same walk, entering only known directories. */
  function Knowing(cfg: Config, dirs: set<Path>): Config { cfg.(descend := (e: Entry) => e.path in dirs) }

  function Deep(cfg: Config): Config { cfg.(descend := (e: Entry) => true) }

  ghost predicate Covers(news: set<Path>, dirs: set<Path>, es: seq<Entry>) {
    forall e | e in es && e.typ == TYPE_DIR && e.path !in dirs :: e.path in news
  }

  lemma KnownEnters(cfg: Config, dirs: set<Path>, path: Path, node: Node, depth: nat, pdev: u64)
    ensures Enters(Knowing(cfg, dirs), path, node, depth, pdev)
            == (Enters(Deep(cfg), path, node, depth, pdev) && (depth == 0 || path in dirs))
  {
  }

  /** What the walk says of one path itself. */
  lemma PrunedDraft(cfg: Config, dirs: set<Path>, path: Path, node: Node, depth: nat, pdev: u64)
    requires depth == 0 ==> path in dirs
    ensures Draft(Knowing(cfg, dirs), path, node, depth, pdev) == Strip(dirs, Draft(Deep(cfg), path, node, depth, pdev))
  {
    hide Enters;
    KnownEnters(cfg, dirs, path, node, depth, pdev);
    OnlyDirs(Deep(cfg), path, node, depth, pdev);
  }

  lemma OnlyDirs(cfg: Config, path: Path, node: Node, depth: nat, pdev: u64)
    ensures Enters(cfg, path, node, depth, pdev) ==> node.info.typ == TYPE_DIR
  {
  }

  lemma {:induction false} PrunedVisit(cfg: Config, news: set<Path>, dirs: set<Path>, path: Path, node: Node,
                                       depth: nat, pdev: u64)
    requires WellFormed(node) && path != [] && [] !in news && news !! dirs
    requires depth == 0 ==> path in dirs
    requires !Concealed(news, path) && Covers(news, dirs, Visit(Deep(cfg), path, node, depth, pdev))
    ensures Visit(Knowing(cfg, dirs), path, node, depth, pdev)
        == Pruned(news, dirs, Visit(Deep(cfg), path, node, depth, pdev))
    decreases node, 1
  {
    hide Draft, Enters, Concealed, Strip, Knowing, Deep, Pruned;
    var c, k := Deep(cfg), Knowing(cfg, dirs);
    var e := Draft(c, path, node, depth, pdev);
    var kids := VisitKids(c, path, node.kids, depth + 1, node.info.dev);
    KnownEnters(cfg, dirs, path, node, depth, pdev);
    PrunedDraft(cfg, dirs, path, node, depth, pdev);
    if Enters(c, path, node, depth, pdev) {
      OnlyDirs(c, path, node, depth, pdev);
      PrunedOne(news, dirs, e, kids);
      assert e in [e] + kids;
      if depth == 0 || path in dirs {
        assert Covers(news, dirs, kids) by { forall f | f in kids ensures f in [e] + kids {} }
        PrunedKids(cfg, news, dirs, path, node.kids, depth + 1, node.info.dev);
      } else {
        KidsInside(c, path, node.kids, depth + 1, node.info.dev);
        assert path in news;
        forall f | f in kids ensures Concealed(news, f.path) { ConcealedBy(news, f.path, path); }
        AllConcealed(news, dirs, kids);
      }
    } else {
      PrunedOne(news, dirs, e, []);
      PrunedNothing(news, dirs);
      assert [e] + [] == [e];
    }
  }

  lemma PrunedNothing(news: set<Path>, dirs: set<Path>)
    ensures Pruned(news, dirs, []) == []
  {
  }

  lemma ConcealedBy(news: set<Path>, p: Path, u: Path)
    requires u in news && Below(p, u)
    ensures Concealed(news, p)
  {
  }

  lemma {:induction false} PrunedKids(cfg: Config, news: set<Path>, dirs: set<Path>, dir: Path, kids: Listing,
                                      depth: nat, pdev: u64)
    requires Listed(kids) && dir != [] && [] !in news && news !! dirs && dir in dirs && depth > 0
    requires !Concealed(news, dir) && Covers(news, dirs, VisitKids(Deep(cfg), dir, kids, depth, pdev))
    ensures VisitKids(Knowing(cfg, dirs), dir, kids, depth, pdev)
        == Pruned(news, dirs, VisitKids(Deep(cfg), dir, kids, depth, pdev))
    decreases kids, 0
  {
    hide Visit, Concealed, Strip, CompareNames, Pruned;
    if kids.Dirent? {
      var path := Join(dir, kids.name);
      var one := VisitOne(Deep(cfg), path, kids.stat, depth, pdev);
      var later := VisitKids(Deep(cfg), dir, kids.rest, depth, pdev);
      ChildVisible(news, dir, kids.name);
      assert Covers(news, dirs, one) by { forall f | f in one ensures f in one + later {} }
      assert Covers(news, dirs, later) by { forall f | f in later ensures f in one + later {} }
      PrunedKids(cfg, news, dirs, dir, kids.rest, depth, pdev);
      PrunedAt(cfg, news, dirs, path, kids.stat, depth, pdev);
      PrunedConcat(news, dirs, one, later);
    } else {
      PrunedNothing(news, dirs);
    }
  }

  lemma {:induction false} PrunedAt(cfg: Config, news: set<Path>, dirs: set<Path>, path: Path, stat: Stat, depth: nat,
                                    pdev: u64)
    requires stat.Present? ==> WellFormed(stat.node)
    requires path != [] && [] !in news && news !! dirs && depth > 0
    requires !Concealed(news, path) && Covers(news, dirs, VisitOne(Deep(cfg), path, stat, depth, pdev))
    ensures VisitOne(Knowing(cfg, dirs), path, stat, depth, pdev)
        == Pruned(news, dirs, VisitOne(Deep(cfg), path, stat, depth, pdev))
    decreases stat, 2
  {
    hide Visit, Concealed, Pruned;
    PrunedNothing(news, dirs);
    if !cfg.exclude(path) {
      match stat
      case Gone(why) =>
        var e := ErrorEntry(path, why);
        PrunedOne(news, dirs, e, []);
        assert [e] + [] == [e];
      case Present(node) => PrunedVisit(cfg, news, dirs, path, node, depth, pdev);
    }
  }

  lemma {:induction false} PrunedFinish(cfg: Config, news: set<Path>, dirs: set<Path>, es: seq<Entry>)
    ensures FinishAll(cfg, Pruned(news, dirs, es)) == Pruned(news, dirs, FinishAll(cfg, es))
  {
    hide Concealed, Strip, Finished, FinishAll;
    if es == [] {
      NothingFinished(cfg);
    } else {
      var e, rest := es[0], es[1..];
      assert es == [e] + rest;
      PrunedFinish(cfg, news, dirs, rest);
      FinishedKeeps(cfg, e);
      StripFinish(cfg, dirs, e);
      FinishAllConcat(cfg, [e], rest);
      FinishSingle(cfg, e);
      PrunedOne(news, dirs, Finished(cfg, e), FinishAll(cfg, rest));
      PrunedOne(news, dirs, e, rest);
      FinishSingle(cfg, Strip(dirs, e));
      FinishAllConcat(cfg, [Strip(dirs, e)], Pruned(news, dirs, rest));
    }
  }

  lemma FinishSingle(cfg: Config, e: Entry)
    ensures FinishAll(cfg, [e]) == [Finished(cfg, e)]
  {
  }

  lemma StripFinish(cfg: Config, dirs: set<Path>, e: Entry)
    ensures Finished(cfg, Strip(dirs, e)) == Strip(dirs, Finished(cfg, e))
  {
  }

  /** The directories of a live stream the fingerprint does not know. */
  function NewDirs(base: seq<Entry>, live: seq<Entry>): set<Path> { DirPaths(live) - DirPaths(base) }

  lemma AlikeFinish(cfg: Config, cfg': Config, es: seq<Entry>)
    requires cfg'.noHash == cfg.noHash && cfg'.maxFileSize == cfg.maxFileSize && cfg'.content == cfg.content
    ensures FinishAll(cfg', es) == FinishAll(cfg, es)
  {
    forall i | 0 <= i < |es| ensures Finished(cfg', es[i]) == Finished(cfg, es[i]) {}
  }

  /** The pruned walk is the deep one with everything below a new directory left out. */
  lemma PrunedScan(cfg: Config, base: seq<Entry>, root: Path, tree: Node)
    requires WellFormed(tree) && root != [] && root in DirPaths(base)
    ensures var deep := Scan(Deep(cfg), root, tree);
            Scan(Knowing(cfg, DirPaths(base)), root, tree) == Pruned(NewDirs(base, deep), DirPaths(base), deep)
  {
    hide Visit, Pruned, Finished, WellFormed, FinishAll;
    var dirs, deep := DirPaths(base), Scan(Deep(cfg), root, tree);
    var news := NewDirs(base, deep);
    var v := Visit(Deep(cfg), root, tree, 0, tree.info.dev);
    forall e | e in v && e.typ == TYPE_DIR && e.path !in dirs ensures e.path in news {
      MemberFinished(Deep(cfg), v, e);
    }
    NewDirsInside(cfg, root, tree);
    forall u | u in news ensures u != [] && !Below(root, u) {
      var f :| f in deep && f.path == u;
      NotAbove(root, u);
    }
    PrunedVisit(cfg, news, dirs, root, tree, 0, tree.info.dev);
    PrunedFinish(Deep(cfg), news, dirs, v);
    AlikeFinish(Deep(cfg), Knowing(cfg, dirs), Pruned(news, dirs, v));
  }

  lemma NewDirsInside(cfg: Config, root: Path, tree: Node)
    requires WellFormed(tree) && root != []
    ensures forall f | f in Scan(Deep(cfg), root, tree) :: AtOrBelow(f.path, root) && f.path != []
  {
    hide Visit, Finished;
    var v := Visit(Deep(cfg), root, tree, 0, tree.info.dev);
    VisitInside(Deep(cfg), root, tree, 0, tree.info.dev);
    forall f | f in Scan(Deep(cfg), root, tree) ensures AtOrBelow(f.path, root) && f.path != [] {
      var e := FinishedMember(Deep(cfg), v, f);
    }
  }

  // ---- what a pruned comparison reports --------------------------------------------------

  /** A change as it is reported when new directories are not listed. */
  function Restated(dirs: set<Path>, c: Change): Change {
    if c.now.None? then c
    else
      var now := Strip(dirs, c.now.value);
      if c.was.None? then Added(now) else c.(op := Classify(c.was.value, now), now := Some(now))
  }

  /** The changes strictly below a new directory left out, the others restated. */
  function Visible(news: set<Path>, dirs: set<Path>, cs: seq<Change>): seq<Change> {
    if cs == [] then []
    else (if Concealed(news, cs[0].path) then [] else [Restated(dirs, cs[0])]) + Visible(news, dirs, cs[1..])
  }

  lemma VisibleOne(news: set<Path>, dirs: set<Path>, c: Change, rest: seq<Change>)
    ensures Visible(news, dirs, [c] + rest)
        == (if Concealed(news, c.path) then [] else [Restated(dirs, c)]) + Visible(news, dirs, rest)
  {
    assert ([c] + rest)[1..] == rest;
  }

  lemma {:induction false} PrunedMember(news: set<Path>, dirs: set<Path>, es: seq<Entry>)
    ensures forall f | f in Pruned(news, dirs, es) :: exists e :: e in es && f == Strip(dirs, e)
  {
    hide Concealed, Strip;
    if es != [] {
      PrunedMember(news, dirs, es[1..]);
      assert forall e | e in es[1..] :: e in es;
    }
  }

  /** The pair at one path: leaving a new directory's listing error out never makes it unchanged. */
  lemma RestatedPair(dirs: set<Path>, was: Entry, live: Entry)
    requires was.path == live.path && (was.typ == TYPE_DIR ==> was.path in dirs)
    ensures Changed(was, Strip(dirs, live))
         == if Changed(was, live) == [] then [] else [Restated(dirs, Changed(was, live)[0])]
  {
  }

  lemma RestatedAdded(dirs: set<Path>, e: Entry)
    ensures Restated(dirs, Added(e)) == Added(Strip(dirs, e))
  {
  }

  /** Pruning the live stream prunes the differences, provided nothing of the base is concealed. */
  lemma {:induction false} MergePruned(news: set<Path>, dirs: set<Path>, base: seq<Entry>, live: seq<Entry>)
    requires Ordered(base) && Ordered(live)
    requires forall b | b in base :: !Concealed(news, b.path) && (b.typ == TYPE_DIR ==> b.path in dirs)
    ensures Merge(base, Pruned(news, dirs, live)) == Visible(news, dirs, Merge(base, live))
    decreases |base| + |live|
  {
    hide Less, Ordered, Classify, OpForMissing, Concealed, Strip, Changed, Restated;
    StepAbove(base, live);
    if base != [] && live != [] { StepCases(base, live); }
    hide Merge, Pruned;
    MergeCases(base, live);
    MergeCases(base, Pruned(news, dirs, live));
    PrunedHead(news, dirs, live);
    if base == [] && live == [] {
    } else if live == [] || (base != [] && Less(base[0].path, live[0].path)) {
      MergePruned(news, dirs, base[1..], live);
      PrunedAbove(news, dirs, live, base[0].path);
      VisibleOne(news, dirs, Removed(base[0]), Merge(base[1..], live));
      RestatedRemoved(dirs, base[0]);
    } else if base != [] && base[0].path == live[0].path {
      MergePruned(news, dirs, base[1..], live[1..]);
      RestatedPair(dirs, base[0], live[0]);
      VisiblePair(news, dirs, base[0], live[0], Merge(base[1..], live[1..]));
    } else {
      MergePruned(news, dirs, base, live[1..]);
      VisibleOne(news, dirs, Added(live[0]), Merge(base, live[1..]));
      RestatedAdded(dirs, live[0]);
      assert [] + Visible(news, dirs, Merge(base, live[1..])) == Visible(news, dirs, Merge(base, live[1..]));
    }
  }

  /** One step of the merge. */
  lemma MergeCases(base: seq<Entry>, live: seq<Entry>)
    ensures base == [] && live == [] ==> Merge(base, live) == []
    ensures base != [] && (live == [] || Less(base[0].path, live[0].path))
        ==> Merge(base, live) == [Removed(base[0])] + Merge(base[1..], live)
    ensures base != [] && live != [] && !Less(base[0].path, live[0].path) && base[0].path == live[0].path ==>
              Merge(base, live) == Changed(base[0], live[0]) + Merge(base[1..], live[1..])
    ensures live != [] && (base == [] || (!Less(base[0].path, live[0].path) && base[0].path != live[0].path)) ==>
              Merge(base, live) == [Added(live[0])] + Merge(base, live[1..])
  {
    hide Less, Changed;
  }

  lemma PrunedHead(news: set<Path>, dirs: set<Path>, live: seq<Entry>)
    ensures live == [] ==> Pruned(news, dirs, live) == []
    ensures live != [] && Concealed(news, live[0].path) ==> Pruned(news, dirs, live) == Pruned(news, dirs, live[1..])
    ensures live != [] && !Concealed(news, live[0].path) ==>
              var kept := Pruned(news, dirs, live);
              kept != [] && kept[0] == Strip(dirs, live[0]) && kept[1..] == Pruned(news, dirs, live[1..])
  {
    hide Concealed, Strip;
  }

  lemma PrunedAbove(news: set<Path>, dirs: set<Path>, live: seq<Entry>, p: Path)
    requires AllAbove(live, p)
    ensures Pruned(news, dirs, live) != [] ==> Less(p, Pruned(news, dirs, live)[0].path)
  {
    hide Less, Pruned, Strip;
    PrunedMember(news, dirs, live);
    var kept := Pruned(news, dirs, live);
    if kept != [] {
      assert kept[0] in kept;
      var e :| e in live && kept[0] == Strip(dirs, e);
    }
  }

  lemma RestatedRemoved(dirs: set<Path>, e: Entry)
    ensures Restated(dirs, Removed(e)) == Removed(e)
  {
  }

  lemma VisiblePair(news: set<Path>, dirs: set<Path>, was: Entry, live: Entry, rest: seq<Change>)
    requires was.path == live.path && !Concealed(news, was.path)
    ensures Visible(news, dirs, Changed(was, live) + rest)
            == (if Changed(was, live) == [] then [] else [Restated(dirs, Changed(was, live)[0])])
               + Visible(news, dirs, rest)
  {
    hide Concealed, Restated, Classify;
    if Changed(was, live) == [] {
      assert [] + rest == rest;
    } else {
      VisibleOne(news, dirs, Changed(was, live)[0], rest);
    }
  }

  /** A fingerprint written by a completed walk, late reads of a recycled cell included. */
  ghost predicate Fingerprint(base: seq<Entry>, root: Path) {
    exists cfg, cells, tree :: Records(cfg, cells, root, tree, base)
  }

  ghost predicate Records(cfg: Config, cells: nat, root: Path, tree: Node, base: seq<Entry>) {
    cells > 0 && WellFormed(tree) && tree.info.typ == TYPE_DIR && base == RingScan(cfg, cells, root, tree)
  }

  lemma ScanStartsAtRoot(cfg: Config, root: Path, tree: Node)
    ensures Scan(cfg, root, tree) != [] && Scan(cfg, root, tree)[0].path == root
        && Scan(cfg, root, tree)[0].typ == tree.info.typ
  {
    hide VisitKids, Enters;
    FinishedKeeps(cfg, Draft(cfg, root, tree, 0, tree.info.dev));
  }

  lemma WalkStartsAtRoot(cfg: Config, cells: nat, root: Path, tree: Node)
    requires cells > 0
    ensures RingScan(cfg, cells, root, tree) != [] && RingScan(cfg, cells, root, tree)[0].path == root
        && RingScan(cfg, cells, root, tree)[0].typ == tree.info.typ
  {
    hide RingKids, Enters, Own;
  }

  lemma FingerprintFacts(base: seq<Entry>, root: Path)
    requires Fingerprint(base, root) && root != []
    ensures Ordered(base) && root in DirPaths(base)
    ensures forall f, u | f in base && AtOrBelow(u, root) && Below(f.path, u) :: u in DirPaths(base)
  {
    hide RingVisit, Below, Ordered, WellFormed;
    var cfg, cells, tree :| Records(cfg, cells, root, tree, base);
    RingVisitOrdered(cfg, cells, [], root, tree, 0, tree.info.dev);
    WalkStartsAtRoot(cfg, cells, root, tree);
    assert base[0] in base;
    forall f, u | f in base && AtOrBelow(u, root) && Below(f.path, u) ensures u in DirPaths(base) {
      AncestorsRecorded(cfg, cells, root, tree, f, u);
    }
  }

  /** Nothing recorded lies below a directory the fingerprint does not know. */
  lemma RecordedIsVisible(base: seq<Entry>, root: Path, cfg: Config, tree: Node)
    requires Fingerprint(base, root) && root != [] && WellFormed(tree)
    ensures var news := NewDirs(base, Scan(Deep(cfg), root, tree));
            forall b | b in base :: !Concealed(news, b.path)
  {
    hide Scan, Below, Fingerprint, WellFormed;
    FingerprintFacts(base, root);
    NewDirsInside(cfg, root, tree);
    var news := NewDirs(base, Scan(Deep(cfg), root, tree));
    forall b, u | b in base && u in news ensures !Below(b.path, u) {
      var f :| f in Scan(Deep(cfg), root, tree) && f.path == u;
      assert AtOrBelow(u, root);
    }
  }

  /**
   * Pruning is sound: against a fingerprint written by a completed walk, comparing without entering
   * unknown directories gives deep mode's changes less those strictly below an unknown directory.
   */
  lemma PruningIsSound(cfg: Config, base: seq<Entry>, root: Path, tree: Node)
    requires Fingerprint(base, root) && root != [] && WellFormed(tree)
    ensures var dirs, deep := DirPaths(base), Scan(Deep(cfg), root, tree);
            Merge(base, Scan(Knowing(cfg, dirs), root, tree)) == Visible(NewDirs(base, deep), dirs, Merge(base, deep))
  {
    hide Scan, Concealed, Fingerprint, WellFormed, Ordered, Merge, Visible, Pruned;
    var deep := Scan(Deep(cfg), root, tree);
    FingerprintFacts(base, root);
    PrunedScan(cfg, base, root, tree);
    RecordedIsVisible(base, root, cfg, tree);
    ScanOrdered(Deep(cfg), root, tree);
    MergePruned(NewDirs(base, deep), DirPaths(base), base, deep);
  }

  /** Whatever is left out is an addition. */
  lemma OnlyAdditionsLost(cfg: Config, base: seq<Entry>, root: Path, tree: Node, c: Change)
    requires Fingerprint(base, root) && root != [] && WellFormed(tree)
    requires c in Merge(base, Scan(Deep(cfg), root, tree))
        && Concealed(NewDirs(base, Scan(Deep(cfg), root, tree)), c.path)
    ensures c.was == None && (c.op == OpAddedDir || c.op == OpAdded)
  {
    hide Scan, Concealed, Fingerprint, WellFormed, Ordered, Merge;
    var deep := Scan(Deep(cfg), root, tree);
    FingerprintFacts(base, root);
    RecordedIsVisible(base, root, cfg, tree);
    ScanOrdered(Deep(cfg), root, tree);
    MergeMember(base, deep, c);
    MapKeys(base, c.path);
  }

  /** A recorded non-directory, readable then, is now a directory that cannot be listed. */
  ghost predicate Unlistable(dirs: set<Path>, c: Change) {
    c.was.Some? && c.now.Some? && c.now.value.typ == TYPE_DIR && c.path !in dirs && c.was.value.err == []
        && c.now.value.err != []
  }

  /** The one way restating a change alters its category: ?E in deep mode, !T without listing. */
  lemma RestatedOp(dirs: set<Path>, was: Entry, live: Entry)
    requires was.path == live.path && Classify(was, live) != OpNone && (was.typ == TYPE_DIR ==> was.path in dirs)
    ensures var c := Changed(was, live)[0];
            && (Restated(dirs, c).op == c.op <==> !Unlistable(dirs, c))
            && (Unlistable(dirs, c) ==> c.op == OpUnreadable && Restated(dirs, c).op == OpTypeChanged)
  {
  }

  lemma RestatedKeeps(cfg: Config, base: seq<Entry>, root: Path, tree: Node, c: Change)
    requires Fingerprint(base, root) && root != [] && WellFormed(tree) && c in Merge(base, Scan(Deep(cfg), root, tree))
    ensures var dirs := DirPaths(base);
            && Restated(dirs, c).path == c.path && Restated(dirs, c).was == c.was
            && (Restated(dirs, c).op == c.op <==> !Unlistable(dirs, c))
            && (Unlistable(dirs, c) ==> c.op == OpUnreadable && Restated(dirs, c).op == OpTypeChanged)
  {
    hide Scan, Fingerprint, WellFormed, Ordered, Merge, AsMap;
    var deep := Scan(Deep(cfg), root, tree);
    FingerprintFacts(base, root);
    ScanOrdered(Deep(cfg), root, tree);
    MergeMember(base, deep, c);
    if c.path in AsMap(base) {
      InMap(base, c.path);
      if c.path in AsMap(deep) {
        InMap(deep, c.path);
        hide Classify, Restated, Unlistable;
        RestatedOp(DirPaths(base), AsMap(base)[c.path], AsMap(deep)[c.path]);
      }
    } else {
      InMap(deep, c.path);
    }
  }

  lemma InMap(es: seq<Entry>, p: Path)
    requires Ordered(es) && p in AsMap(es)
    ensures AsMap(es)[p] in es && AsMap(es)[p].path == p
  {
    hide Ordered;
    MapKeys(es, p);
    var e :| e in es && e.path == p;
    MapEntry(es, e);
  }
}
