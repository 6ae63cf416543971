/** Counting what lies under an added directory by a walk of its own (summarizeDir, cmd/osfp/compare.go). */
module Summarize {
  import opened Bytes
  import opened Canon
  import opened ScanEntry
  import opened Walk
  import opened MapDiff
  import opened Prune

  // ---- one visit inside another ----------------------------------------------------------

  /** The walk of one tree visits node at path, at this depth and from a parent on pdev. */
  ghost predicate Visited(cfg: Config, top: Path, tree: Node, topDepth: nat, topDev: u64, path: Path, node: Node,
                          depth: nat, pdev: u64)
    decreases tree, 1
  {
    || (path == top && node == tree && depth == topDepth && pdev == topDev)
    || (Enters(cfg, top, tree, topDepth, topDev)
        && VisitedIn(cfg, top, tree.kids, topDepth + 1, tree.info.dev, path, node, depth, pdev))
  }

  ghost predicate VisitedIn(cfg: Config, dir: Path, kids: Listing, kidDepth: nat, dev: u64, path: Path, node: Node,
                            depth: nat, pdev: u64)
    decreases kids, 0
  {
    kids.Dirent?
    && (|| (!cfg.exclude(Join(dir, kids.name)) && kids.stat.Present?
            && Visited(cfg, Join(dir, kids.name), kids.stat.node, kidDepth, dev, path, node, depth, pdev))
        || VisitedIn(cfg, dir, kids.rest, kidDepth, dev, path, node, depth, pdev))
  }

  lemma {:induction false} VisitedEntry(cfg: Config, top: Path, tree: Node, topDepth: nat, topDev: u64, path: Path,
                                        node: Node, depth: nat, pdev: u64)
    requires Visited(cfg, top, tree, topDepth, topDev, path, node, depth, pdev) && WellFormed(tree)
    ensures Draft(cfg, path, node, depth, pdev) in Visit(cfg, top, tree, topDepth, topDev)
    ensures AtOrBelow(path, top) && WellFormed(node) && depth >= topDepth
    decreases tree, 1
  {
    hide Draft, Enters, Below;
    var all := Visit(cfg, top, tree, topDepth, topDev);
    if path == top && node == tree && depth == topDepth && pdev == topDev {
      assert all[0] in all;
    } else {
      VisitedInEntry(cfg, top, tree.kids, topDepth + 1, tree.info.dev, path, node, depth, pdev);
    }
  }

  lemma {:induction false} VisitedInEntry(cfg: Config, dir: Path, kids: Listing, kidDepth: nat, dev: u64, path: Path,
                                          node: Node, depth: nat, pdev: u64)
    requires VisitedIn(cfg, dir, kids, kidDepth, dev, path, node, depth, pdev) && Listed(kids)
    ensures Draft(cfg, path, node, depth, pdev) in VisitKids(cfg, dir, kids, kidDepth, dev)
    ensures Below(path, dir) && WellFormed(node) && depth >= kidDepth
    decreases kids, 0
  {
    hide Draft, Below, Visit, CompareNames;
    if VisitedIn(cfg, dir, kids.rest, kidDepth, dev, path, node, depth, pdev) {
      VisitedInEntry(cfg, dir, kids.rest, kidDepth, dev, path, node, depth, pdev);
    } else {
      var p := Join(dir, kids.name);
      VisitedEntry(cfg, p, kids.stat.node, kidDepth, dev, path, node, depth, pdev);
      JoinBelow(dir, kids.name);
      if path != p { BelowTransitive(path, p, dir); }
    }
  }

  ghost predicate Outside(es: seq<Entry>, d: Path) {
    forall e | e in es :: !AtOrBelow(e.path, d)
  }

  lemma AtOrBelowTransitive(x: Path, y: Path, z: Path)
    requires AtOrBelow(x, y) && AtOrBelow(y, z)
    ensures AtOrBelow(x, z)
  {
    if x != y && y != z { BelowTransitive(x, y, z); }
  }

  lemma AtOrBelowNotBefore(x: Path, d: Path)
    requires AtOrBelow(x, d)
    ensures !Less(x, d)
  {
    if x != d { BelowIsAbove(x, d); }
    StrictTotalOrder(x, d, x);
  }

  /** The walk of a directory is a contiguous slice of the walk of the tree, and nothing outside the
      slice is at or below the directory. */
  lemma {:induction false} SliceOfVisit(cfg: Config, top: Path, tree: Node, topDepth: nat, topDev: u64, path: Path,
                                        node: Node, depth: nat, pdev: u64)
    returns (a: seq<Entry>, b: seq<Entry>)
    requires Visited(cfg, top, tree, topDepth, topDev, path, node, depth, pdev) && WellFormed(tree)
    ensures Visit(cfg, top, tree, topDepth, topDev) == a + Visit(cfg, path, node, depth, pdev) + b
    ensures Outside(a, path) && Outside(b, path)
    decreases tree, 1
  {
    hide Draft, Enters, Below, VisitKids, Less;
    if path == top && node == tree && depth == topDepth && pdev == topDev {
      a, b := [], [];
    } else {
      var e := Draft(cfg, top, tree, topDepth, topDev);
      a, b := SliceOfKids(cfg, top, tree.kids, topDepth + 1, tree.info.dev, path, node, depth, pdev);
      VisitedInEntry(cfg, top, tree.kids, topDepth + 1, tree.info.dev, path, node, depth, pdev);
      if AtOrBelow(top, path) {
        AtOrBelowNotBefore(top, path);
        BelowIsAbove(path, top);
      }
      Prepend(e, a, Visit(cfg, path, node, depth, pdev), b);
      a := [e] + a;
    }
  }

  lemma Prepend(e: Entry, a: seq<Entry>, v: seq<Entry>, b: seq<Entry>)
    ensures [e] + (a + v + b) == ([e] + a) + v + b
  {
  }

  lemma Reassociate(one: seq<Entry>, later: seq<Entry>, a: seq<Entry>, v: seq<Entry>, b: seq<Entry>)
    ensures one == a + v + b ==> one + later == a + v + (b + later)
    ensures later == a + v + b ==> one + later == (one + a) + v + b
  {
    if one == a + v + b { assert one + later == a + v + (b + later); }
    if later == a + v + b { assert one + later == (one + a) + v + b; }
  }

  lemma {:induction false} SliceOfKids(cfg: Config, dir: Path, kids: Listing, kidDepth: nat, dev: u64, path: Path,
                                       node: Node, depth: nat, pdev: u64)
    returns (a: seq<Entry>, b: seq<Entry>)
    requires VisitedIn(cfg, dir, kids, kidDepth, dev, path, node, depth, pdev) && Listed(kids)
    ensures VisitKids(cfg, dir, kids, kidDepth, dev) == a + Visit(cfg, path, node, depth, pdev) + b
    ensures Outside(a, path) && Outside(b, path)
    decreases kids, 0
  {
    hide Draft, Below, Visit, CompareNames, Less, Join;
    var p := Join(dir, kids.name);
    var one, later := VisitOne(cfg, p, kids.stat, kidDepth, dev), VisitKids(cfg, dir, kids.rest, kidDepth, dev);
    OneInside(cfg, p, kids.stat, kidDepth, dev);
    if VisitedIn(cfg, dir, kids.rest, kidDepth, dev, path, node, depth, pdev) {
      a, b := SliceOfKids(cfg, dir, kids.rest, kidDepth, dev, path, node, depth, pdev);
      VisitedInEntry(cfg, dir, kids.rest, kidDepth, dev, path, node, depth, pdev);
      DraftPath(cfg, path, node, depth, pdev);
      forall e | e in one ensures !AtOrBelow(e.path, path) {
        LaterKidsAbove(cfg, dir, kids.name, e.path, kids.rest, kidDepth, dev);
        if AtOrBelow(e.path, path) { AtOrBelowNotBefore(e.path, path); }
      }
      Reassociate(one, later, a, Visit(cfg, path, node, depth, pdev), b);
      a := one + a;
    } else {
      a, b := SliceOfVisit(cfg, p, kids.stat.node, kidDepth, dev, path, node, depth, pdev);
      VisitedEntry(cfg, p, kids.stat.node, kidDepth, dev, path, node, depth, pdev);
      forall e | e in later ensures !AtOrBelow(e.path, path) {
        if AtOrBelow(e.path, path) {
          AtOrBelowTransitive(e.path, path, p);
          LaterKidsAbove(cfg, dir, kids.name, e.path, kids.rest, kidDepth, dev);
          StrictTotalOrder(e.path, e.path, e.path);
        }
      }
      Reassociate(one, later, a, Visit(cfg, path, node, depth, pdev), b);
      b := b + later;
    }
  }

  lemma DraftPath(cfg: Config, path: Path, node: Node, depth: nat, pdev: u64)
    ensures Draft(cfg, path, node, depth, pdev).path == path
  {
  }

  /** The options of the walk that counts. */
  function Counting(cfg: Config): Config { Deep(cfg).(noHash := true) }

  // ---- the counters ----------------------------------------------------------------------

  const NOTHING: DirSummary := DirSummary(0, 0, 0)

  function Plus(a: DirSummary, b: DirSummary): DirSummary {
    DirSummary(a.files + b.files, a.dirs + b.dirs, a.bytes + b.bytes)
  }

  /** Regular files, directories and bytes among these entries. */
  function Weight(e: Entry): DirSummary {
    if e.typ == TYPE_DIR then DirSummary(0, 1, 0)
    else if e.typ == TYPE_FILE then DirSummary(1, 0, e.size as int)
    else NOTHING
  }

  function SumBelow(d: Path, es: seq<Entry>): DirSummary {
    if es == [] then NOTHING
    else Plus(if Below(es[0].path, d) then Weight(es[0]) else NOTHING, SumBelow(d, es[1..]))
  }

  /** What each counter counts. */
  lemma {:induction false} SumMeans(d: Path, es: seq<Entry>)
    ensures SumBelow(d, es).files == HowMany(es, (e: Entry) => e.typ == TYPE_FILE && Below(e.path, d))
    ensures SumBelow(d, es).dirs == HowMany(es, (e: Entry) => e.typ == TYPE_DIR && Below(e.path, d))
    ensures SumBelow(d, es).bytes == SizesBelow(d, es)
  {
    hide Below, SumBelow, HowMany;
    var file, dir := (e: Entry) => e.typ == TYPE_FILE && Below(e.path, d),
        (e: Entry) => e.typ == TYPE_DIR && Below(e.path, d);
    if es == [] {
      SumNothing(d);
      NoneOfNothing(file);
      NoneOfNothing(dir);
    } else {
      SumMeans(d, es[1..]);
      SumStep(d, es);
      assert [es[0]] + es[1..] == es;
      HowManyCons(es[0], es[1..], file);
      HowManyCons(es[0], es[1..], dir);
    }
  }

  lemma NoneOfNothing(p: Entry -> bool)
    ensures HowMany([], p) == 0
  {
  }

  function SizesBelow(d: Path, es: seq<Entry>): int {
    if es == [] then 0
    else (if es[0].typ == TYPE_FILE && Below(es[0].path, d) then es[0].size as int else 0) + SizesBelow(d, es[1..])
  }

  lemma PlusLaws(a: DirSummary, b: DirSummary, c: DirSummary)
    ensures Plus(Plus(a, b), c) == Plus(a, Plus(b, c))
    ensures Plus(NOTHING, a) == a && Plus(a, NOTHING) == a
  {
  }

  lemma SumStep(d: Path, es: seq<Entry>)
    requires es != []
    ensures SumBelow(d, es) == Plus(if Below(es[0].path, d) then Weight(es[0]) else NOTHING, SumBelow(d, es[1..]))
  {
  }

  lemma SumNothing(d: Path)
    ensures SumBelow(d, []) == NOTHING
  {
  }

  lemma {:induction false} SumConcat(d: Path, a: seq<Entry>, b: seq<Entry>)
    ensures SumBelow(d, a + b) == Plus(SumBelow(d, a), SumBelow(d, b))
  {
    hide Below, Weight, Plus, SumBelow, NOTHING;
    if a == [] {
      assert a + b == b;
      SumNothing(d);
      PlusLaws(SumBelow(d, b), NOTHING, NOTHING);
    } else {
      assert (a + b)[1..] == a[1..] + b && (a + b)[0] == a[0];
      SumConcat(d, a[1..], b);
      SumStep(d, a);
      SumStep(d, a + b);
      PlusLaws(if Below(a[0].path, d) then Weight(a[0]) else NOTHING, SumBelow(d, a[1..]), SumBelow(d, b));
    }
  }

  lemma {:induction false} SumOutside(d: Path, es: seq<Entry>)
    requires Outside(es, d)
    ensures SumBelow(d, es) == NOTHING
  {
    hide Below, Weight, Plus, NOTHING, SumBelow;
    if es == [] {
      SumNothing(d);
    } else {
      assert forall e | e in es[1..] :: e in es;
      SumOutside(d, es[1..]);
      assert !AtOrBelow(es[0].path, d);
      SumStep(d, es);
      PlusLaws(NOTHING, NOTHING, NOTHING);
    }
  }

  lemma {:induction false} SumFinished(cfg: Config, d: Path, es: seq<Entry>)
    ensures SumBelow(d, FinishAll(cfg, es)) == SumBelow(d, es)
  {
    hide Below, Finished;
    if es != [] {
      assert FinishAll(cfg, es)[1..] == FinishAll(cfg, es[1..]);
      FinishedKeeps(cfg, es[0]);
      SumFinished(cfg, d, es[1..]);
    }
  }

  /** The counting callback, over everything the walk from path emits; none when that walk fails. */
  method SummarizeDir(emitted: seq<Entry>, walkFails: bool, path: Path) returns (s: Option<DirSummary>)
    requires forall e | e in emitted :: AtOrBelow(e.path, path) && (e.path == path ==> e.typ == TYPE_DIR)
    ensures s == if walkFails then None else Some(SumBelow(path, emitted))
  {
    hide Below, Weight, Plus, SumBelow, NOTHING;
    var files: nat, dirs: nat, bytes: int := 0, 0, 0;
    StartsEmpty(path, emitted);
    for i := 0 to |emitted|
      invariant Plus(DirSummary(files, dirs, bytes), SumBelow(path, emitted[i..])) == SumBelow(path, emitted)
    {
      var e := emitted[i];
      CountOne(path, emitted, i, DirSummary(files, dirs, bytes));
      if e.typ == TYPE_DIR && e.path != path {
        dirs := dirs + 1;
      } else if e.typ == TYPE_FILE {
        files := files + 1;
        bytes := bytes + e.size as int;
      }
    }
    EndsEmpty(path, emitted, DirSummary(files, dirs, bytes));
    if walkFails { return None; }
    return Some(DirSummary(files, dirs, bytes));
  }

  lemma StartsEmpty(d: Path, es: seq<Entry>)
    ensures Plus(DirSummary(0, 0, 0), SumBelow(d, es[0..])) == SumBelow(d, es)
  {
    hide SumBelow;
    assert es[0..] == es;
  }

  lemma EndsEmpty(d: Path, es: seq<Entry>, s: DirSummary)
    ensures Plus(s, SumBelow(d, es[|es|..])) == s
  {
  }

  lemma CountOne(d: Path, es: seq<Entry>, i: nat, s: DirSummary)
    requires i < |es| && AtOrBelow(es[i].path, d) && (es[i].path == d ==> es[i].typ == TYPE_DIR)
    ensures var e := es[i];
            var t := if e.typ == TYPE_DIR && e.path != d then s.(dirs := s.dirs + 1)
                     else if e.typ == TYPE_FILE then s.(files := s.files + 1, bytes := s.bytes + e.size as int)
                     else s;
            Plus(t, SumBelow(d, es[i + 1..])) == Plus(s, SumBelow(d, es[i..]))
  {
    hide Below, SumBelow;
    NotBelowSelf(d);
    SumStep(d, es[i..]);
    assert es[i..][1..] == es[i + 1..];
  }

  lemma NotBelowSelf(d: Path)
    ensures !Below(d, d)
  {
  }

  // ---- the walk from the directory itself ------------------------------------------------

  /** Where the counting walk, at depth own, enters a directory that deep mode, at this depth, does not, nothing
      listed there is counted. */
  ghost predicate Uncut(cfg: Config, path: Path, node: Node, own: nat, depth: nat, pdev: u64)
    decreases node, 1
  {
    Enters(Deep(cfg), path, node, own, pdev) ==>
      KidsUncut(cfg, path, node.kids, own + 1, depth + 1, node.info.dev, Enters(Deep(cfg), path, node, depth, pdev))
  }

  ghost predicate KidsUncut(cfg: Config, dir: Path, kids: Listing, own: nat, depth: nat, dev: u64, entered: bool)
    decreases kids, 0
  {
    kids.Dirent? ==>
      && OneUncut(cfg, Join(dir, kids.name), kids.stat, own, depth, dev, entered)
      && KidsUncut(cfg, dir, kids.rest, own, depth, dev, entered)
  }

  ghost predicate OneUncut(cfg: Config, path: Path, stat: Stat, own: nat, depth: nat, dev: u64, entered: bool)
    decreases stat, 2
  {
    !cfg.exclude(path) && stat.Present? ==>
      if entered then Uncut(cfg, path, stat.node, own, depth, dev) else !IsCounted(stat.node)
  }

  predicate IsCounted(node: Node) { node.info.typ == TYPE_DIR || node.info.typ == TYPE_FILE }

  /** The first counters are the second, or more. */
  predicate Counted(a: DirSummary, b: DirSummary, same: bool) {
    if same then a == b else a.files + a.dirs > b.files + b.dirs
  }

  lemma CountedPlus(a: DirSummary, b: DirSummary, same: bool, a': DirSummary, b': DirSummary, same': bool)
    requires Counted(a, b, same) && Counted(a', b', same')
    ensures Counted(Plus(a, a'), Plus(b, b'), same && same')
  {
  }

  lemma SumOne(d: Path, e: Entry)
    ensures SumBelow(d, [e]) == if Below(e.path, d) then Weight(e) else NOTHING
  {
    hide Below, Weight, Plus, NOTHING, SumBelow;
    SumStep(d, [e]);
    SumNothing(d);
    assert [e][1..] == [];
    PlusLaws(if Below(e.path, d) then Weight(e) else NOTHING, NOTHING, NOTHING);
  }

  /** What a visit adds to the counters. */
  lemma SumVisit(cfg: Config, d: Path, path: Path, node: Node, depth: nat, pdev: u64)
    ensures SumBelow(d, Visit(cfg, path, node, depth, pdev))
         == Plus(if Below(path, d) then Weight(StatEntry(path, node)) else NOTHING,
                 if Enters(cfg, path, node, depth, pdev)
                 then SumBelow(d, VisitKids(cfg, path, node.kids, depth + 1, node.info.dev)) else NOTHING)
  {
    hide Below, Weight, SumBelow, Plus, NOTHING, Enters, VisitKids, StatEntry, Draft;
    var e := Draft(cfg, path, node, depth, pdev);
    DraftWeight(cfg, path, node, depth, pdev);
    SumOne(d, e);
    SumNothing(d);
    SumConcat(d, [e], if Enters(cfg, path, node, depth, pdev)
                      then VisitKids(cfg, path, node.kids, depth + 1, node.info.dev) else []);
  }

  lemma DraftWeight(cfg: Config, path: Path, node: Node, depth: nat, pdev: u64)
    ensures Weight(Draft(cfg, path, node, depth, pdev)) == Weight(StatEntry(path, node))
    ensures Counted(Weight(StatEntry(path, node)), NOTHING, !IsCounted(node))
  {
    hide Enters;
  }

  lemma SumKids(cfg: Config, d: Path, dir: Path, kids: Listing, depth: nat, dev: u64)
    requires kids.Dirent?
    ensures SumBelow(d, VisitKids(cfg, dir, kids, depth, dev))
         == Plus(SumBelow(d, VisitOne(cfg, Join(dir, kids.name), kids.stat, depth, dev)),
                 SumBelow(d, VisitKids(cfg, dir, kids.rest, depth, dev)))
  {
    hide SumBelow, Plus, VisitOne, Join;
    SumConcat(d, VisitOne(cfg, Join(dir, kids.name), kids.stat, depth, dev),
              VisitKids(cfg, dir, kids.rest, depth, dev));
  }

  lemma SumGone(cfg: Config, d: Path, path: Path, stat: Stat, depth: nat, dev: u64)
    requires cfg.exclude(path) || stat.Gone?
    ensures SumBelow(d, VisitOne(cfg, path, stat, depth, dev)) == NOTHING
  {
    SumNothing(d);
    if stat.Gone? { SumOne(d, ErrorEntry(path, stat.why)); }
  }

  lemma CountsEnter(cfg: Config, path: Path, node: Node, own: nat, depth: nat, pdev: u64)
    requires own <= depth
    ensures Enters(Counting(cfg), path, node, own, pdev) == Enters(Deep(cfg), path, node, own, pdev)
    ensures Enters(Deep(cfg), path, node, depth, pdev) ==> Enters(Deep(cfg), path, node, own, pdev)
  {
  }

  lemma {:induction false} VisitCounts(cfg: Config, d: Path, path: Path, node: Node, own: nat, depth: nat, pdev: u64)
    requires own <= depth && AtOrBelow(path, d) && WellFormed(node)
    ensures Counted(SumBelow(d, Visit(Counting(cfg), path, node, own, pdev)),
                    SumBelow(d, Visit(Deep(cfg), path, node, depth, pdev)), Uncut(cfg, path, node, own, depth, pdev))
    decreases node, 1
  {
    hide Below, Weight, SumBelow, Plus, NOTHING, Enters, Visit, VisitKids, StatEntry, KidsUncut, Counting, Deep;
    SumVisit(Counting(cfg), d, path, node, own, pdev);
    SumVisit(Deep(cfg), d, path, node, depth, pdev);
    CountsEnter(cfg, path, node, own, depth, pdev);
    var w := if Below(path, d) then Weight(StatEntry(path, node)) else NOTHING;
    if Enters(Deep(cfg), path, node, own, pdev) {
      var entered := Enters(Deep(cfg), path, node, depth, pdev);
      KidsCount(cfg, d, path, node.kids, own + 1, depth + 1, node.info.dev, entered);
      CountedPlus(w, w, true, SumBelow(d, VisitKids(Counting(cfg), path, node.kids, own + 1, node.info.dev)),
                  DeepSum(cfg, d, path, node.kids, depth + 1, node.info.dev, entered),
                  Uncut(cfg, path, node, own, depth, pdev));
    }
  }

  ghost function DeepSum(cfg: Config, d: Path, dir: Path, kids: Listing, depth: nat, dev: u64, entered: bool)
    : DirSummary
  {
    if entered then SumBelow(d, VisitKids(Deep(cfg), dir, kids, depth, dev)) else NOTHING
  }

  lemma {:induction false} OneCounts(cfg: Config, d: Path, dir: Path, kids: Listing, own: nat, depth: nat, dev: u64,
                                     entered: bool)
    requires own <= depth && AtOrBelow(dir, d) && Listed(kids) && kids.Dirent?
    ensures var p := Join(dir, kids.name);
            Counted(SumBelow(d, VisitOne(Counting(cfg), p, kids.stat, own, dev)),
                    if entered then SumBelow(d, VisitOne(Deep(cfg), p, kids.stat, depth, dev)) else NOTHING,
                    OneUncut(cfg, p, kids.stat, own, depth, dev, entered))
    decreases kids.stat, 2
  {
    hide Below, CompareNames, Join, SumBelow, Plus, NOTHING, Visit, Uncut, Weight, StatEntry, Enters;
    var p, stat := Join(dir, kids.name), kids.stat;
    JoinBelow(dir, kids.name);
    if dir != d { BelowTransitive(p, dir, d); }
    if cfg.exclude(p) || stat.Gone? {
      SumGone(Counting(cfg), d, p, stat, own, dev);
      SumGone(Deep(cfg), d, p, stat, depth, dev);
    } else if entered {
      VisitCounts(cfg, d, p, stat.node, own, depth, dev);
    } else {
      var kidsSum := SumBelow(d, VisitKids(Counting(cfg), p, stat.node.kids, own + 1, stat.node.info.dev));
      SumVisit(Counting(cfg), d, p, stat.node, own, dev);
      DraftWeight(Counting(cfg), p, stat.node, own, dev);
      NotDirNotEntered(Counting(cfg), p, stat.node, own, dev);
      PlusLaws(NOTHING, NOTHING, NOTHING);
      MoreStays(Weight(StatEntry(p, stat.node)), kidsSum);
    }
  }

  lemma MoreStays(a: DirSummary, b: DirSummary)
    ensures Counted(a, NOTHING, false) ==>
              Counted(Plus(a, b), NOTHING, false) && Counted(Plus(a, NOTHING), NOTHING, false)
  {
  }

  lemma NotDirNotEntered(cfg: Config, path: Path, node: Node, depth: nat, pdev: u64)
    ensures Enters(cfg, path, node, depth, pdev) ==> IsCounted(node)
  {
  }

  lemma {:induction false} KidsCount(cfg: Config, d: Path, dir: Path, kids: Listing, own: nat, depth: nat, dev: u64,
                                     entered: bool)
    requires own <= depth && AtOrBelow(dir, d) && Listed(kids)
    ensures Counted(SumBelow(d, VisitKids(Counting(cfg), dir, kids, own, dev)),
                    DeepSum(cfg, d, dir, kids, depth, dev, entered),
                    KidsUncut(cfg, dir, kids, own, depth, dev, entered))
    decreases kids, 0
  {
    hide Below, CompareNames, Join, SumBelow, Plus, NOTHING, AtOrBelow, Visit, VisitOne, Uncut, Counting, Deep;
    if kids.End? {
      SumNothing(d);
    } else {
      var p, c := Join(dir, kids.name), Counting(cfg);
      var one := SumBelow(d, VisitOne(c, p, kids.stat, own, dev));
      var deep := if entered then SumBelow(d, VisitOne(Deep(cfg), p, kids.stat, depth, dev)) else NOTHING;
      OneCounts(cfg, d, dir, kids, own, depth, dev, entered);
      SumKids(c, d, dir, kids, own, dev);
      SumKids(Deep(cfg), d, dir, kids, depth, dev);
      PlusLaws(NOTHING, NOTHING, NOTHING);
      KidsCount(cfg, d, dir, kids.rest, own, depth, dev, entered);
      CountedPlus(one, deep, OneUncut(cfg, p, kids.stat, own, depth, dev, entered),
                  SumBelow(d, VisitKids(c, dir, kids.rest, own, dev)),
                  DeepSum(cfg, d, dir, kids.rest, depth, dev, entered),
                  KidsUncut(cfg, dir, kids.rest, own, depth, dev, entered));
    }
  }

  /** The counters of a directory that deep mode visits, at any depth and from any parent, are those of what deep
      mode visits strictly below it exactly when neither the mount policy nor the depth limit keeps deep mode from
      something that is counted: the counting walk always enters the directory it starts at, and counts its depth
      from there. */
  lemma SummaryIsDeep(cfg: Config, root: Path, tree: Node, path: Path, node: Node, depth: nat, pdev: u64)
    requires WellFormed(tree)
    requires Visited(Deep(cfg), root, tree, 0, tree.info.dev, path, node, depth, pdev)
    ensures SumBelow(path, Scan(Counting(cfg), path, node)) == SumBelow(path, Scan(Deep(cfg), root, tree))
       <==> Uncut(cfg, path, node, 0, depth, pdev)
  {
    hide Visit, Visited, Uncut, Deep, Counting, FinishAll, SumBelow, Plus, NOTHING, Outside, WellFormed;
    var a, b := SliceOfVisit(Deep(cfg), root, tree, 0, tree.info.dev, path, node, depth, pdev);
    var v := Visit(Deep(cfg), path, node, depth, pdev);
    VisitedEntry(Deep(cfg), root, tree, 0, tree.info.dev, path, node, depth, pdev);
    VisitCounts(cfg, path, path, node, 0, depth, pdev);
    RootFromAnywhere(Counting(cfg), path, node, pdev, node.info.dev);
    SumFinished(Counting(cfg), path, Visit(Counting(cfg), path, node, 0, node.info.dev));
    SumFinished(Deep(cfg), path, Visit(Deep(cfg), root, tree, 0, tree.info.dev));
    SumConcat(path, a + v, b);
    SumConcat(path, a, v);
    SumOutside(path, a);
    SumOutside(path, b);
    PlusLaws(SumBelow(path, v), NOTHING, NOTHING);
  }

  lemma RootFromAnywhere(cfg: Config, path: Path, node: Node, x: u64, y: u64)
    ensures Visit(cfg, path, node, 0, x) == Visit(cfg, path, node, 0, y)
  {
  }

  /** Every directory in the subtree is above the depth limit. */
  ghost predicate WithinDepth(cfg: Config, path: Path, node: Node, depth: nat)
    decreases node, 1
  {
    node.info.typ == TYPE_DIR ==> depth < cfg.maxDepth && KidsWithinDepth(cfg, path, node.kids, depth + 1)
  }

  ghost predicate KidsWithinDepth(cfg: Config, dir: Path, kids: Listing, depth: nat)
    decreases kids, 0
  {
    kids.Dirent? ==>
      && (!cfg.exclude(Join(dir, kids.name)) && kids.stat.Present? ==>
            WithinDepth(cfg, Join(dir, kids.name), kids.stat.node, depth))
      && KidsWithinDepth(cfg, dir, kids.rest, depth)
  }

  /** Under any mount policy, so far above the depth limit only the directory itself matters. */
  lemma {:induction false} WithinDepthUncut(cfg: Config, path: Path, node: Node, own: nat, depth: nat, pdev: u64)
    requires own <= depth && WithinDepth(cfg, path, node, depth)
    requires own > 0 || node.info.typ != TYPE_DIR || Enters(Deep(cfg), path, node, depth, pdev)
    ensures Uncut(cfg, path, node, own, depth, pdev)
    decreases node, 1
  {
    if Enters(Deep(cfg), path, node, own, pdev) {
      KidsWithinDepthUncut(cfg, path, node.kids, own + 1, depth + 1, node.info.dev);
    }
  }

  lemma {:induction false} KidsWithinDepthUncut(cfg: Config, dir: Path, kids: Listing, own: nat, depth: nat, dev: u64)
    requires 0 < own <= depth && KidsWithinDepth(cfg, dir, kids, depth)
    ensures KidsUncut(cfg, dir, kids, own, depth, dev, true)
    decreases kids, 0
  {
    hide Join;
    if kids.Dirent? {
      var p := Join(dir, kids.name);
      KidsWithinDepthUncut(cfg, dir, kids.rest, own, depth, dev);
      if !cfg.exclude(p) && kids.stat.Present? { WithinDepthUncut(cfg, p, kids.stat.node, own, depth, dev); }
    }
  }
}
