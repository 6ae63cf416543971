/** When walks with different numbers of cells are the same: an exact condition, and where they part otherwise. */
module RingAgree {
  import opened Bytes
  import opened Canon
  import opened ScanEntry
  import opened Walk
  import opened RingWalk

  // ---- the condition ---------------------------------------------------------------------

  ghost predicate AllExcluded(cfg: Config, dir: Path, kids: Listing) {
    kids.Dirent? ==> cfg.exclude(Join(dir, kids.name)) && AllExcluded(cfg, dir, kids.rest)
  }

  /** Entering this directory or not leaves the same entries. */
  ghost predicate Hollow(cfg: Config, path: Path, node: Node) {
    AllExcluded(cfg, path, node.kids) && (node.listErr.Some? ==> node.listErr.value == [])
  }

  /** Along the walk with m cells, which compares this node with device x, no decision to enter a directory that is
      not hollow changes when the parent's device is read from n cells instead, here y. */
  ghost predicate Agree(cfg: Config, m: nat, n: nat, before: seq<Entry>, path: Path, node: Node, depth: nat, x: u64,
                        y: u64)
    requires m > 0 && n > 0
    decreases node, 1
  {
    && (Enters(cfg, path, node, depth, x) == Enters(cfg, path, node, depth, y) || Hollow(cfg, path, node))
    && (Enters(cfg, path, node, depth, x) && Enters(cfg, path, node, depth, y) ==>
          KidsAgree(cfg, m, n, before + Own(cfg, path, node, depth, x).log, path, node.kids, depth + 1, |before|))
  }

  ghost predicate KidsAgree(cfg: Config, m: nat, n: nat, before: seq<Entry>, dir: Path, kids: Listing, depth: nat,
                            home: nat)
    requires m > 0 && n > 0
    decreases kids, 0
  {
    kids.Dirent? ==>
      var path := Join(dir, kids.name);
      var x, y := DeviceOf(m, before, home % m), DeviceOf(n, before, home % n);
      && (!cfg.exclude(path) && kids.stat.Present? ==> Agree(cfg, m, n, before, path, kids.stat.node, depth, x, y))
      && KidsAgree(cfg, m, n, before + RingOne(cfg, m, before, path, kids.stat, depth, x).log, dir, kids.rest, depth,
                   home)
  }

  ghost predicate WalksAgree(cfg: Config, m: nat, n: nat, root: Path, tree: Node)
    requires m > 0 && n > 0
  {
    Agree(cfg, m, n, [], root, tree, 0, tree.info.dev, tree.info.dev)
  }

  // ---- then the walks are the same -------------------------------------------------------

  /** With the same decision, or a hollow directory, the visit's own entry is the same. */
  lemma OwnSame(cfg: Config, path: Path, node: Node, depth: nat, x: u64, y: u64)
    requires Enters(cfg, path, node, depth, x) == Enters(cfg, path, node, depth, y)
          || (node.listErr.Some? ==> node.listErr.value == [])
    ensures Own(cfg, path, node, depth, x).log == Own(cfg, path, node, depth, y).log
  {
    DraftSame(cfg, path, node, depth, x, y);
    hide Draft, Enters, Finished;
  }

  lemma DraftSame(cfg: Config, path: Path, node: Node, depth: nat, x: u64, y: u64)
    requires Enters(cfg, path, node, depth, x) == Enters(cfg, path, node, depth, y)
          || (node.listErr.Some? ==> node.listErr.value == [])
    ensures Draft(cfg, path, node, depth, x) == Draft(cfg, path, node, depth, y)
  {
    hide MayDescend;
  }

  lemma {:induction false} ExcludedAddNothing(cfg: Config, cells: nat, before: seq<Entry>, dir: Path, kids: Listing,
                                              depth: nat, home: nat)
    requires cells > 0 && AllExcluded(cfg, dir, kids)
    ensures RingKids(cfg, cells, before, dir, kids, depth, home).log == []
  {
    hide RingVisit, DeviceOf, Join;
    if kids.Dirent? {
      assert before + [] == before;
      ExcludedAddNothing(cfg, cells, before, dir, kids.rest, depth, home);
    }
  }

  lemma {:induction false} AgreeSame(cfg: Config, m: nat, n: nat, before: seq<Entry>, path: Path, node: Node,
                                     depth: nat, x: u64, y: u64)
    requires m > 0 && n > 0 && Agree(cfg, m, n, before, path, node, depth, x, y)
    ensures RingVisit(cfg, m, before, path, node, depth, x).log == RingVisit(cfg, n, before, path, node, depth, y).log
    decreases node, 1
  {
    hide Own, Enters, RingKids, KidsAgree, AllExcluded;
    var own := Own(cfg, path, node, depth, x).log;
    OwnSame(cfg, path, node, depth, x, y);
    if Enters(cfg, path, node, depth, x) != Enters(cfg, path, node, depth, y) {
      ExcludedAddNothing(cfg, m, before + own, path, node.kids, depth + 1, |before|);
      ExcludedAddNothing(cfg, n, before + own, path, node.kids, depth + 1, |before|);
      assert own + [] == own;
    } else if Enters(cfg, path, node, depth, x) {
      KidsAgreeSame(cfg, m, n, before + own, path, node.kids, depth + 1, |before|);
    }
  }

  lemma {:induction false} KidsAgreeSame(cfg: Config, m: nat, n: nat, before: seq<Entry>, dir: Path, kids: Listing,
                                         depth: nat, home: nat)
    requires m > 0 && n > 0 && KidsAgree(cfg, m, n, before, dir, kids, depth, home)
    ensures RingKids(cfg, m, before, dir, kids, depth, home).log == RingKids(cfg, n, before, dir, kids, depth, home).log
    decreases kids, 0
  {
    hide RingVisit, Agree, DeviceOf, Join;
    if kids.Dirent? {
      var path, x := Join(dir, kids.name), DeviceOf(m, before, home % m);
      OneAgreeSame(cfg, m, n, before, path, kids.stat, depth, x, DeviceOf(n, before, home % n));
      var one := RingOne(cfg, m, before, path, kids.stat, depth, x).log;
      hide RingOne;
      KidsAgreeSame(cfg, m, n, before + one, dir, kids.rest, depth, home);
    }
  }

  lemma {:induction false} OneAgreeSame(cfg: Config, m: nat, n: nat, before: seq<Entry>, path: Path, stat: Stat,
                                        depth: nat, x: u64, y: u64)
    requires m > 0 && n > 0
    requires !cfg.exclude(path) && stat.Present? ==> Agree(cfg, m, n, before, path, stat.node, depth, x, y)
    ensures RingOne(cfg, m, before, path, stat, depth, x).log == RingOne(cfg, n, before, path, stat, depth, y).log
    decreases stat, 2
  {
    hide RingVisit, Agree;
    if !cfg.exclude(path) && stat.Present? { AgreeSame(cfg, m, n, before, path, stat.node, depth, x, y); }
  }

  // ---- otherwise they part ---------------------------------------------------------------

  /** Two entries no report confuses: of different paths, or only one of them with an error. */
  predicate Telling(e: Entry, f: Entry) {
    e.path != f.path || ((e.err == []) != (f.err == []))
  }

  /** Two lists part at i, and so they do whatever follows that is not at or below d. */
  ghost predicate PartAt(a: seq<Entry>, b: seq<Entry>, d: Path, i: nat) {
    && i <= |a| && i <= |b| && a[..i] == b[..i]
    && (|| (i < |a| && i < |b| && Telling(a[i], b[i]))
        || (i == |b| < |a| && AtOrBelow(a[i].path, d))
        || (i == |a| < |b| && AtOrBelow(b[i].path, d)))
  }

  ghost predicate Part(a: seq<Entry>, b: seq<Entry>, d: Path) {
    exists i: nat :: PartAt(a, b, d, i)
  }

  ghost predicate AllOutside(es: seq<Entry>, d: Path) {
    forall e | e in es :: !AtOrBelow(e.path, d)
  }

  lemma PartUnequal(a: seq<Entry>, b: seq<Entry>, d: Path)
    requires Part(a, b, d)
    ensures a != b
  {
    hide AtOrBelow;
  }

  lemma PartMore(a: seq<Entry>, b: seq<Entry>, d: Path, a': seq<Entry>, b': seq<Entry>, top: Path)
    requires Part(a, b, d) && AllOutside(a', d) && AllOutside(b', d)
    requires forall x | AtOrBelow(x, d) :: AtOrBelow(x, top)
    ensures Part(a + a', b + b', top)
  {
    hide AtOrBelow;
    var i: nat :| PartAt(a, b, d, i);
    assert (a + a')[..i] == a[..i] && (b + b')[..i] == b[..i];
    assert PartAt(a + a', b + b', top, i);
  }

  lemma PartAfter(p: seq<Entry>, a: seq<Entry>, b: seq<Entry>, d: Path)
    requires Part(a, b, d)
    ensures Part(p + a, p + b, d)
  {
    hide AtOrBelow, Telling;
    var i: nat :| PartAt(a, b, d, i);
    assert (p + a)[..|p| + i] == p + a[..i] && (p + b)[..|p| + i] == p + b[..i];
    assert PartAt(p + a, p + b, d, |p| + i);
  }

  /** One walk enters a directory that is not hollow and the other does not. */
  lemma PartHere(e: Entry, e': Entry, more: seq<Entry>, d: Path)
    requires Telling(e, e') || (e == e' && more != [] && AtOrBelow(more[0].path, d))
    ensures Part([e] + more, [e'], d) && Part([e'], [e] + more, d)
  {
    hide AtOrBelow;
    var a, b := [e] + more, [e'];
    if Telling(e, e') {
      assert PartAt(a, b, d, 0) && PartAt(b, a, d, 0);
    } else {
      assert a[..1] == [e] && b[..1] == [e'];
      assert PartAt(a, b, d, 1) && PartAt(b, a, d, 1);
    }
  }

  lemma {:induction false} SomethingAdded(cfg: Config, cells: nat, before: seq<Entry>, dir: Path, kids: Listing,
                                          depth: nat, home: nat)
    requires cells > 0 && !AllExcluded(cfg, dir, kids)
    ensures RingKids(cfg, cells, before, dir, kids, depth, home).log != []
    decreases kids
  {
    hide DeviceOf, Join, Own, Enters;
    var path, x := Join(dir, kids.name), DeviceOf(cells, before, home % cells);
    if cfg.exclude(path) {
      assert before + [] == before;
      SomethingAdded(cfg, cells, before, dir, kids.rest, depth, home);
    } else {
      OneAdds(cfg, cells, before, path, kids.stat, depth, x);
      hide RingVisit, RingOne;
    }
  }

  lemma OneAdds(cfg: Config, cells: nat, before: seq<Entry>, path: Path, stat: Stat, depth: nat, x: u64)
    requires cells > 0 && !cfg.exclude(path)
    ensures RingOne(cfg, cells, before, path, stat, depth, x).log != []
  {
    hide RingKids, Enters, Own;
  }

  lemma OwnDiffers(cfg: Config, path: Path, node: Node, depth: nat, x: u64, y: u64)
    requires Enters(cfg, path, node, depth, x) && !Enters(cfg, path, node, depth, y)
    requires node.listErr.Some? && node.listErr.value != []
    ensures Telling(Own(cfg, path, node, depth, x).log[0], Own(cfg, path, node, depth, y).log[0])
  {
    hide MayDescend;
  }

  lemma {:induction false} DisagreePart(cfg: Config, m: nat, n: nat, before: seq<Entry>, path: Path, node: Node,
                                        depth: nat, x: u64, y: u64)
    requires m > 0 && n > 0 && WellFormed(node) && !Agree(cfg, m, n, before, path, node, depth, x, y)
    ensures Part(RingVisit(cfg, m, before, path, node, depth, x).log,
                 RingVisit(cfg, n, before, path, node, depth, y).log, path)
    decreases node, 1
  {
    hide Own, Enters, RingKids, KidsAgree, AllExcluded, AtOrBelow, Part;
    if Enters(cfg, path, node, depth, x) && !Enters(cfg, path, node, depth, y) {
      OneSideEnters(cfg, m, n, before, path, node, depth, x, y);
    } else if Enters(cfg, path, node, depth, y) && !Enters(cfg, path, node, depth, x) {
      OneSideEnters(cfg, n, m, before, path, node, depth, y, x);
    } else {
      var own := Own(cfg, path, node, depth, x).log;
      OwnSame(cfg, path, node, depth, x, y);
      var a := RingKids(cfg, m, before + own, path, node.kids, depth + 1, |before|).log;
      var b := RingKids(cfg, n, before + own, path, node.kids, depth + 1, |before|).log;
      KidsDisagreePart(cfg, m, n, before + own, path, node.kids, depth + 1, |before|);
      PartAfter(own, a, b, path);
    }
  }

  lemma OneSideEnters(cfg: Config, m: nat, n: nat, before: seq<Entry>, path: Path, node: Node, depth: nat, x: u64,
                      y: u64)
    requires m > 0 && n > 0 && WellFormed(node) && !Hollow(cfg, path, node)
    requires Enters(cfg, path, node, depth, x) && !Enters(cfg, path, node, depth, y)
    ensures var a := RingVisit(cfg, m, before, path, node, depth, x).log;
            var b := RingVisit(cfg, n, before, path, node, depth, y).log;
            Part(a, b, path) && Part(b, a, path)
  {
    hide Own, Enters, RingKids, AllExcluded, AtOrBelow, Part, Under, Telling;
    var e, e' := Own(cfg, path, node, depth, x).log[0], Own(cfg, path, node, depth, y).log[0];
    assert Own(cfg, path, node, depth, x).log == [e] && Own(cfg, path, node, depth, y).log == [e'];
    var more := RingKids(cfg, m, before + [e], path, node.kids, depth + 1, |before|).log;
    RingKidsUnder(cfg, m, before + [e], path, node.kids, depth + 1, |before|);
    if node.listErr.Some? && node.listErr.value != [] {
      OwnDiffers(cfg, path, node, depth, x, y);
    } else {
      OwnSame(cfg, path, node, depth, x, y);
      SomethingAdded(cfg, m, before + [e], path, node.kids, depth + 1, |before|);
      assert more[0] in more;
      UnderIsBelow(path, node.kids, more[0].path);
    }
    PartHere(e, e', more, path);
  }

  /** Everything under later names is outside the subtree of an earlier one. */
  lemma LaterOutside(dir: Path, kids: Listing, es: seq<Entry>)
    requires Listed(kids) && kids.Dirent? && forall e | e in es :: Under(dir, kids.rest, e.path)
    ensures AllOutside(es, Join(dir, kids.name))
  {
    hide Under, AtOrBelow, Join, Less, WellFormed, CompareNames;
    forall e | e in es ensures !AtOrBelow(e.path, Join(dir, kids.name)) {
      if AtOrBelow(e.path, Join(dir, kids.name)) {
        UnderLater(dir, kids.name, e.path, kids.rest, e.path);
        StrictTotalOrder(e.path, e.path, e.path);
      }
    }
  }

  lemma ChildSubtree(dir: Path, name: Bytes, x: Path)
    requires name != [] && AtOrBelow(x, Join(dir, name))
    ensures AtOrBelow(x, dir)
  {
    hide Below, Join;
    JoinBelow(dir, name);
    if x != Join(dir, name) { BelowTransitive(x, Join(dir, name), dir); }
  }

  lemma {:induction false} KidsDisagreePart(cfg: Config, m: nat, n: nat, before: seq<Entry>, dir: Path, kids: Listing,
                                            depth: nat, home: nat)
    requires m > 0 && n > 0 && Listed(kids) && !KidsAgree(cfg, m, n, before, dir, kids, depth, home)
    ensures Part(RingKids(cfg, m, before, dir, kids, depth, home).log,
                 RingKids(cfg, n, before, dir, kids, depth, home).log, dir)
    decreases kids, 0
  {
    hide RingVisit, Agree, DeviceOf, Join, AtOrBelow, Under, CompareNames, Part;
    var path := Join(dir, kids.name);
    var x, y := DeviceOf(m, before, home % m), DeviceOf(n, before, home % n);
    var one := RingOne(cfg, m, before, path, kids.stat, depth, x).log;
    var one' := RingOne(cfg, n, before, path, kids.stat, depth, y).log;
    var rest := RingKids(cfg, m, before + one, dir, kids.rest, depth, home).log;
    var rest' := RingKids(cfg, n, before + one', dir, kids.rest, depth, home).log;
    if !cfg.exclude(path) && kids.stat.Present? && !Agree(cfg, m, n, before, path, kids.stat.node, depth, x, y) {
      DisagreePart(cfg, m, n, before, path, kids.stat.node, depth, x, y);
      RingKidsUnder(cfg, m, before + one, dir, kids.rest, depth, home);
      RingKidsUnder(cfg, n, before + one', dir, kids.rest, depth, home);
      LaterOutside(dir, kids, rest);
      LaterOutside(dir, kids, rest');
      forall z | AtOrBelow(z, path) ensures AtOrBelow(z, dir) { ChildSubtree(dir, kids.name, z); }
      PartMore(one, one', path, rest, rest', dir);
    } else {
      OneAgreeSame(cfg, m, n, before, path, kids.stat, depth, x, y);
      KidsDisagreePart(cfg, m, n, before + one, dir, kids.rest, depth, home);
      PartAfter(one, rest, rest', dir);
    }
  }

  /** Two numbers of cells give the same walk exactly when every decision that shows is the same with both. */
  lemma RingScansAgree(cfg: Config, m: nat, n: nat, root: Path, tree: Node)
    requires m > 0 && n > 0 && WellFormed(tree)
    ensures RingScan(cfg, m, root, tree) == RingScan(cfg, n, root, tree) <==> WalksAgree(cfg, m, n, root, tree)
    ensures !WalksAgree(cfg, m, n, root, tree) ==>
              Part(RingScan(cfg, m, root, tree), RingScan(cfg, n, root, tree), root)
  {
    hide RingVisit, Agree, Part, WellFormed;
    if WalksAgree(cfg, m, n, root, tree) {
      AgreeSame(cfg, m, n, [], root, tree, 0, tree.info.dev, tree.info.dev);
    } else {
      DisagreePart(cfg, m, n, [], root, tree, 0, tree.info.dev, tree.info.dev);
      PartUnequal(RingScan(cfg, m, root, tree), RingScan(cfg, n, root, tree), root);
    }
  }

  /** The same number of cells gives the same walk. */
  lemma AgreeWithSelf(cfg: Config, m: nat, root: Path, tree: Node)
    requires m > 0 && WellFormed(tree)
    ensures WalksAgree(cfg, m, m, root, tree)
  {
    hide RingVisit, Agree, Part, WellFormed;
    RingScansAgree(cfg, m, m, root, tree);
  }
}
