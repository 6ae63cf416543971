/** The walker's own state, stepped through in place: visit, mayDescend, noteMount and hashEntry. */
module WalkerState {
  import opened Bytes
  import opened Canon
  import opened ScanEntry
  import opened Walk
  import opened RingWalk

  /** The first twenty. */
  function Capped(ps: seq<Path>): (r: seq<Path>)
    ensures r <= ps && |r| == if |ps| < 20 then |ps| else 20
  {
    if |ps| <= MAX_SKIPPED_MOUNTS then ps else ps[..MAX_SKIPPED_MOUNTS]
  }

  /** What each cell of the buffer holds the device of. */
  ghost predicate Holds(cells: nat, ring: seq<Entry>, committed: seq<Entry>) {
    cells > 0 && |ring| == cells && forall c | 0 <= c < cells :: ring[c].dev == DeviceOf(cells, committed, c)
  }

  /** The entry of one reorder-buffer cell. */
  class Slot {
    var e: Entry

    constructor ()
      ensures e == BLANK
    {
      e := BLANK;
    }
  }

  method FillSlot(s: Slot, path: Path, node: Node)
    requires s.e == BLANK
    modifies s
    ensures s.e == StatEntry(path, node)
  {
    s.e := s.e.(path := path);
    s.e := s.e.(typ := node.info.typ);
    s.e := s.e.(mode := node.info.mode);
    s.e := s.e.(size := node.info.size);
    s.e := s.e.(mtime := node.info.mtime);
    s.e := s.e.(uid := node.info.uid, gid := node.info.gid, dev := node.info.dev, ino := node.info.ino,
                nlink := node.info.nlink);
    if s.e.typ == TYPE_SYMLINK {
      match node.readlink
      case Target(link) => s.e := s.e.(link := link);
      case LinkFails(why) => s.e := s.e.(err := why);
    }
  }

  method HashEntry(cfg: Config, s: Slot)
    modifies s
    ensures s.e == Hashed(cfg, old(s.e))
  {
    if cfg.maxFileSize > 0 && s.e.size > cfg.maxFileSize {
      s.e := s.e.(partial := true);
      return;
    }
    var c := cfg.content(s.e.path);
    if c.OpenFails? {
      s.e := s.e.(err := c.why);
      return;
    }
    if c.ReadFails? {
      s.e := s.e.(err := c.why);
      return;
    }
    s.e := s.e.(hash := c.digest);
    s.e := s.e.(hashed := true);
  }

  class Walker {
    const cfg: Config
    const cells: nat
    var ring: seq<Entry>
    var committed: seq<Entry>
    var pruned: nat
    var skipped: seq<Path>

    constructor (cfg: Config, cells: nat)
      requires cells > 0
      ensures this.cfg == cfg && this.cells == cells && Holds(cells, ring, committed)
      ensures committed == [] && pruned == 0 && skipped == []
    {
      this.cfg, this.cells, ring := cfg, cells, seq(cells, _ => BLANK);
      committed, pruned, skipped := [], 0, [];
    }

    method NoteMount(path: Path)
      modifies this`skipped
      ensures |old(skipped)| <= MAX_SKIPPED_MOUNTS ==> skipped == Capped(old(skipped) + [path])
    {
      if |skipped| < MAX_SKIPPED_MOUNTS { skipped := skipped + [path]; }
    }

    method CrossMountOrNote(path: Path) returns (ok: bool)
      requires |skipped| <= MAX_SKIPPED_MOUNTS
      modifies this`skipped
      ensures ok == CrossMount(cfg, path)
      ensures skipped == if ok then old(skipped) else Capped(old(skipped) + [path])
    {
      if cfg.mounts == MountAll { return true; }
      var kind := cfg.kind(path);
      if cfg.mounts == MountLocal && kind == FSLocal { return true; }
      NoteMount(path);
      return false;
    }

    /** The three reasons not to enter a directory that has been emitted. */
    method Decide(e: Entry, depth: nat, parentDev: u64) returns (enter: bool)
      requires |skipped| <= MAX_SKIPPED_MOUNTS
      modifies this`pruned, this`skipped
      ensures enter == MayDescend(cfg, e, depth, parentDev)
      ensures pruned == old(pruned) + (if enter then 0 else 1)
      ensures skipped == if depth > 0 && e.dev != parentDev && !CrossMount(cfg, e.path)
                         then Capped(old(skipped) + [e.path]) else old(skipped)
    {
      if depth == 0 { return true; }
      var crossed := true;
      if e.dev != parentDev { crossed := CrossMountOrNote(e.path); }
      if crossed && depth < cfg.maxDepth && cfg.descend(e) { return true; }
      pruned := pruned + 1;
      return false;
    }

    /** The children to visit, once the entry has its final form. */
    method List(s: Slot, node: Node, depth: nat, parentDev: u64) returns (children: Listing)
      requires |skipped| <= MAX_SKIPPED_MOUNTS && s.e == StatEntry(s.e.path, node)
      modifies s, this`pruned, this`skipped
      ensures s.e == Draft(cfg, old(s.e.path), node, depth, parentDev)
      ensures children == if Enters(cfg, old(s.e.path), node, depth, parentDev) then node.kids else End
      ensures pruned == old(pruned) + |Own(cfg, old(s.e.path), node, depth, parentDev).pruned|
      ensures skipped == Capped(old(skipped) + Own(cfg, old(s.e.path), node, depth, parentDev).barriers)
    {
      hide Capped, CrossMount, Finished;
      CappedAlready(skipped);
      children := End;
      if s.e.typ == TYPE_DIR {
        var descend := Decide(s.e, depth, parentDev);
        if descend {
          children := node.kids;
          if node.listErr.Some? { s.e := s.e.(err := node.listErr.value); }
        }
      }
    }

    /** The next cell in turn receives the entry, and the entry joins the sequence. */
    method Commit(e: Entry)
      requires Holds(cells, ring, committed)
      modifies this`ring, this`committed
      ensures committed == old(committed) + [e] && Holds(cells, ring, committed)
    {
      HoldsNext(cells, ring, committed, e);
      ring := ring[|committed| % cells := e];
      committed := committed + [e];
    }

    /** One path and everything below it. */
    method VisitPath(path: Path, node: Node, depth: nat, parentDev: u64)
      requires |skipped| <= MAX_SKIPPED_MOUNTS && Holds(cells, ring, committed)
      modifies this
      ensures Holds(cells, ring, committed)
      ensures var t := RingVisit(cfg, cells, old(committed), path, node, depth, parentDev);
              && committed == old(committed) + t.log
              && pruned == old(pruned) + |t.pruned|
              && skipped == Capped(old(skipped) + t.barriers)
      decreases NodeSize(node)
    {
      hide *;
      HoldsAt(cells, ring, committed, 0);
      VisitUnfold(cfg, cells, path, node, depth, parentDev, committed, skipped);
      var s := new Slot();
      FillSlot(s, path, node);
      DraftStat(cfg, path, node, depth, parentDev);
      var children := List(s, node, depth, parentDev);
      if NeedsHash(cfg, s.e) { HashEntry(cfg, s); }
      var home := |committed|;
      Commit(s.e);
      VisitChildren(path, children, depth + 1, home);
    }

    /** Each child is compared with the device then in the cell that was committed at position home. */
    method VisitChildren(dir: Path, kids: Listing, depth: nat, home: nat)
      requires |skipped| <= MAX_SKIPPED_MOUNTS && Holds(cells, ring, committed)
      modifies this
      ensures Holds(cells, ring, committed)
      ensures var t := RingKids(cfg, cells, old(committed), dir, kids, depth, home);
              && committed == old(committed) + t.log
              && pruned == old(pruned) + |t.pruned|
              && skipped == Capped(old(skipped) + t.barriers)
      decreases ListSize(kids)
    {
      hide RingVisit, Capped, DeviceOf, Join, Holds;
      var c := kids;
      HoldsAt(cells, ring, committed, home);
      ghost var all := RingKids(cfg, cells, committed, dir, kids, depth, home);
      CappedAlready(skipped + all.barriers);
      while c.Dirent?
        invariant Holds(cells, ring, committed)
        invariant Ahead(all, old(committed), old(pruned), old(skipped),
                        RingKids(cfg, cells, committed, dir, c, depth, home), committed, pruned, skipped)
        invariant |skipped| <= MAX_SKIPPED_MOUNTS
        invariant ListSize(c) <= ListSize(kids)
        decreases ListSize(c)
      {
        var child := Join(dir, c.name);
        HoldsAt(cells, ring, committed, home);
        var dev := ring[home % cells].dev;
        KidsUnfold(cfg, cells, dir, c, depth, home, dev, committed, skipped);
        if !cfg.exclude(child) {
          match c.stat
          case Gone(why) => Commit(ErrorEntry(child, why));
          case Present(node) => VisitPath(child, node, depth, dev);
        }
        c := c.rest;
      }
      CappedAlready(skipped);
      assert committed + [] == committed && skipped + [] == skipped;
    }
  }

  /** Where a loop over children stands: what it has added and what is still to come make up the whole. */
  ghost predicate Ahead(all: Trace, was: seq<Entry>, wasPruned: nat, wasSkipped: seq<Path>, ahead: Trace,
                        committed: seq<Entry>, pruned: nat, skipped: seq<Path>) {
    && committed + ahead.log == was + all.log
    && pruned + |ahead.pruned| == wasPruned + |all.pruned|
    && Capped(skipped + ahead.barriers) == Capped(wasSkipped + all.barriers)
  }

  lemma CappedAlready(ps: seq<Path>)
    ensures |ps| <= MAX_SKIPPED_MOUNTS ==> Capped(ps) == ps
    ensures |Capped(ps)| <= MAX_SKIPPED_MOUNTS
    ensures ps + [] == ps
  {
  }

  lemma CappedTwice(a: seq<Path>, b: seq<Path>, c: seq<Path>)
    ensures Capped(a + (b + c)) == Capped(Capped(a + b) + c)
  {
    assert a + (b + c) == (a + b) + c;
  }

  lemma HoldsNext(cells: nat, ring: seq<Entry>, committed: seq<Entry>, e: Entry)
    requires Holds(cells, ring, committed)
    ensures |committed| % cells < |ring| && Holds(cells, ring[|committed| % cells := e], committed + [e])
  {
    assert (committed + [e])[..|committed|] == committed;
  }

  lemma HoldsAt(cells: nat, ring: seq<Entry>, committed: seq<Entry>, home: nat)
    requires Holds(cells, ring, committed)
    ensures cells > 0 && home % cells < |ring| && ring[home % cells].dev == DeviceOf(cells, committed, home % cells)
  {
  }

  lemma DraftStat(cfg: Config, path: Path, node: Node, depth: nat, pdev: u64)
    ensures StatEntry(path, node).path == path
    ensures Own(cfg, path, node, depth, pdev).log == [Finished(cfg, Draft(cfg, path, node, depth, pdev))]
    ensures forall e :: Finished(cfg, e) == if NeedsHash(cfg, e) then Hashed(cfg, e) else e
  {
    hide Hashed, NeedsHash, Enters;
  }

  /** What a visit does itself, and what it leaves to its children. */
  lemma VisitUnfold(cfg: Config, cells: nat, path: Path, node: Node, depth: nat, pdev: u64, committed: seq<Entry>,
                    skipped: seq<Path>)
    requires cells > 0
    ensures var children := if Enters(cfg, path, node, depth, pdev) then node.kids else End;
            var own := Own(cfg, path, node, depth, pdev);
            var all := RingVisit(cfg, cells, committed, path, node, depth, pdev);
            var kids := RingKids(cfg, cells, committed + own.log, path, children, depth + 1, |committed|);
            && ListSize(children) < NodeSize(node)
            && committed + all.log == (committed + own.log) + kids.log
            && |all.pruned| == |own.pruned| + |kids.pruned|
            && Capped(skipped + all.barriers) == Capped(Capped(skipped + own.barriers) + kids.barriers)
            && |Capped(skipped + own.barriers)| <= MAX_SKIPPED_MOUNTS
  {
    hide Own, Enters, Capped;
    var children := if Enters(cfg, path, node, depth, pdev) then node.kids else End;
    var own := Own(cfg, path, node, depth, pdev);
    var kids := RingKids(cfg, cells, committed + own.log, path, children, depth + 1, |committed|);
    PlusLaws(own, NOTHING, NOTHING);
    assert RingVisit(cfg, cells, committed, path, node, depth, pdev) == Plus(own, kids);
    hide RingVisit, RingKids;
    assert committed + (own.log + kids.log) == (committed + own.log) + kids.log;
    CappedTwice(skipped, own.barriers, kids.barriers);
    CappedAlready(skipped + own.barriers);
  }

  /** One turn of the loop over the children. */
  lemma KidsUnfold(cfg: Config, cells: nat, dir: Path, c: Listing, depth: nat, home: nat, dev: u64,
                   committed: seq<Entry>, skipped: seq<Path>)
    requires cells > 0 && c.Dirent? && dev == DeviceOf(cells, committed, home % cells)
    ensures var path := Join(dir, c.name);
            var one := RingOne(cfg, cells, committed, path, c.stat, depth, dev);
            var all := RingKids(cfg, cells, committed, dir, c, depth, home);
            var rest := RingKids(cfg, cells, committed + one.log, dir, c.rest, depth, home);
            && (cfg.exclude(path) ==> one == NOTHING)
            && (!cfg.exclude(path) && c.stat.Gone? ==> one == Trace([ErrorEntry(path, c.stat.why)], [], []))
            && (!cfg.exclude(path) && c.stat.Present? ==>
                  one == RingVisit(cfg, cells, committed, path, c.stat.node, depth, dev))
            && committed + all.log == (committed + one.log) + rest.log
            && |all.pruned| == |one.pruned| + |rest.pruned|
            && Capped(skipped + all.barriers) == Capped(Capped(skipped + one.barriers) + rest.barriers)
            && committed + [] == committed && skipped + [] == skipped
            && (|skipped| <= MAX_SKIPPED_MOUNTS ==> Capped(skipped) == skipped)
            && |Capped(skipped + one.barriers)| <= MAX_SKIPPED_MOUNTS
  {
    hide RingVisit, Capped, DeviceOf, Join;
    var one := RingOne(cfg, cells, committed, Join(dir, c.name), c.stat, depth, dev);
    var rest := RingKids(cfg, cells, committed + one.log, dir, c.rest, depth, home);
    assert RingKids(cfg, cells, committed, dir, c, depth, home) == Plus(one, rest);
    assert committed + (one.log + rest.log) == (committed + one.log) + rest.log;
    CappedTwice(skipped, one.barriers, rest.barriers);
    CappedAlready(skipped);
    CappedAlready(skipped + one.barriers);
  }
}
