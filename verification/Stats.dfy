/** The counters of a scan (Stats.count, internal/scan/walk.go). */
module ScanStats {
  import opened Bytes
  import opened Canon
  import opened ScanEntry
  import opened Walk
  import opened RingWalk
  import opened Pipeline
  import opened PipelineSafety

  datatype Totals = Totals(dirs: nat, files: nat, symlinks: nat, others: nat, errors: nat, hashed: nat, partial: nat,
      bytes: int)

  function Bump(b: bool): nat { if b then 1 else 0 }

  function Counted(t: Totals, e: Entry): Totals {
    Totals(t.dirs + Bump(e.typ == TYPE_DIR), t.files + Bump(e.typ == TYPE_FILE),
        t.symlinks + Bump(e.typ == TYPE_SYMLINK),
           t.others + Bump(e.typ != TYPE_DIR && e.typ != TYPE_FILE && e.typ != TYPE_SYMLINK),
           t.errors + Bump(e.err != []), t.hashed + Bump(e.hashed), t.partial + Bump(e.partial),
           t.bytes + if e.hashed then e.size as int else 0)
  }

  function CountedAll(es: seq<Entry>): Totals {
    if es == [] then Totals(0, 0, 0, 0, 0, 0, 0, 0) else Counted(CountedAll(es[..|es| - 1]), es[|es| - 1])
  }

  class Stats {
    var dirs: nat
    var files: nat
    var symlinks: nat
    var others: nat
    var errors: nat
    var hashed: nat
    var partial: nat
    var bytes: int

    function Value(): Totals
      reads this
    {
      Totals(dirs, files, symlinks, others, errors, hashed, partial, bytes)
    }

    constructor ()
      ensures Value() == CountedAll([])
    {
      dirs, files, symlinks, others, errors, hashed, partial, bytes := 0, 0, 0, 0, 0, 0, 0, 0;
    }

    method Count(e: Entry)
      modifies this
      ensures Value() == Counted(old(Value()), e)
    {
      if e.typ == TYPE_DIR {
        dirs := dirs + 1;
      } else if e.typ == TYPE_FILE {
        files := files + 1;
      } else if e.typ == TYPE_SYMLINK {
        symlinks := symlinks + 1;
      } else {
        others := others + 1;
      }
      if e.err != [] { errors := errors + 1; }
      if e.hashed {
        hashed := hashed + 1;
        bytes := bytes + e.size as int;
      }
      if e.partial { partial := partial + 1; }
    }
  }

  /** Sizes of the hashed entries. */
  function HashedBytes(es: seq<Entry>): int {
    if es == [] then 0 else HashedBytes(es[..|es| - 1]) + if es[|es| - 1].hashed then es[|es| - 1].size as int else 0
  }

  /** What each counter counts. */
  lemma {:induction false} CountersMean(es: seq<Entry>)
    ensures var t := CountedAll(es);
            && t.dirs == HowMany(es, (e: Entry) => e.typ == TYPE_DIR)
            && t.files == HowMany(es, (e: Entry) => e.typ == TYPE_FILE)
            && t.symlinks == HowMany(es, (e: Entry) => e.typ == TYPE_SYMLINK)
            && t.others == HowMany(es, (e: Entry) => e.typ !in {TYPE_DIR, TYPE_FILE, TYPE_SYMLINK})
            && t.errors == HowMany(es, (e: Entry) => e.err != [])
            && t.hashed == HowMany(es, (e: Entry) => e.hashed)
            && t.partial == HowMany(es, (e: Entry) => e.partial)
            && t.bytes == HashedBytes(es)
  {
    if es != [] { CountersMean(es[..|es| - 1]); }
  }

  /** Each entry is in exactly one of the four kinds. */
  lemma {:induction false} TotalIsEntries(es: seq<Entry>)
    ensures var t := CountedAll(es); t.dirs + t.files + t.symlinks + t.others == |es|
  {
    if es != [] { TotalIsEntries(es[..|es| - 1]); }
  }

  ghost predicate SaysWhy(cfg: Config) {
    forall p :: match cfg.content(p)
                case OpenFails(why) => why != []
                case ReadFails(why) => why != []
                case Sum(_) => true
  }

  predicate Settled(cfg: Config, e: Entry) {
    if NeedsHash(cfg, e) then (if e.hashed then !e.partial && e.err == [] else e.partial <==> e.err == [])
    else !e.hashed && !e.partial
  }

  predicate Unsettled(e: Entry) { !e.hashed && !e.partial && (e.typ == TYPE_FILE ==> e.err == []) }

  ghost predicate AllSettled(cfg: Config, es: seq<Entry>) {
    forall e | e in es :: Settled(cfg, e)
  }

  lemma OwnSettled(cfg: Config, path: Path, node: Node, depth: nat, pdev: u64)
    requires SaysWhy(cfg)
    ensures AllSettled(cfg, Own(cfg, path, node, depth, pdev).log)
  {
    DraftUnsettled(cfg, path, node, depth, pdev);
    hide Draft;
  }

  lemma DraftUnsettled(cfg: Config, path: Path, node: Node, depth: nat, pdev: u64)
    ensures Unsettled(Draft(cfg, path, node, depth, pdev))
  {
    hide MayDescend;
  }

  lemma {:induction false} VisitSettles(cfg: Config, cells: nat, before: seq<Entry>, path: Path, node: Node,
                                        depth: nat, pdev: u64)
    requires cells > 0 && SaysWhy(cfg)
    ensures AllSettled(cfg, RingVisit(cfg, cells, before, path, node, depth, pdev).log)
    decreases node, 1
  {
    hide Own, Enters, RingKids, Settled, SaysWhy;
    OwnSettled(cfg, path, node, depth, pdev);
    KidsSettle(cfg, cells, before + Own(cfg, path, node, depth, pdev).log, path, node.kids, depth + 1, |before|);
  }

  lemma {:induction false} KidsSettle(cfg: Config, cells: nat, before: seq<Entry>, dir: Path, kids: Listing,
                                      depth: nat, home: nat)
    requires cells > 0 && SaysWhy(cfg)
    ensures AllSettled(cfg, RingKids(cfg, cells, before, dir, kids, depth, home).log)
    decreases kids, 0
  {
    hide RingVisit, DeviceOf, Join, SaysWhy;
    if kids.Dirent? {
      var path, x := Join(dir, kids.name), DeviceOf(cells, before, home % cells);
      var one := RingOne(cfg, cells, before, path, kids.stat, depth, x);
      if kids.stat.Present? { VisitSettles(cfg, cells, before, path, kids.stat.node, depth, x); }
      KidsSettle(cfg, cells, before + one.log, dir, kids.rest, depth, home);
    }
  }

  /** A regular file that should be hashed ends up hashed, partial or with an error, and one of them
      only; nothing else is hashed or partial. */
  lemma ScanSettles(cfg: Config, cells: nat, root: Path, tree: Node)
    requires cells > 0 && SaysWhy(cfg)
    ensures AllSettled(cfg, RingScan(cfg, cells, root, tree))
  {
    hide RingVisit, SaysWhy;
    VisitSettles(cfg, cells, [], root, tree, 0, tree.info.dev);
  }

  lemma {:induction false} SettledCounts(cfg: Config, es: seq<Entry>)
    requires AllSettled(cfg, es)
    ensures var t := CountedAll(es);
            && t.hashed + t.partial <= t.files
            && (!cfg.noHash ==> t.files <= t.hashed + t.partial + t.errors)
  {
    if es != [] {
      var r, l := es[..|es| - 1], es[|es| - 1];
      assert es == r + [l];
      SettledCounts(cfg, r);
      assert Settled(cfg, l);
    }
  }

  /** So at any moment of any run, finished or not, what emit has been handed is accounted for. */
  lemma FilesAccountedFor(setup: Setup, run: seq<Step>)
    requires setup.jobs > 0 && Legal(setup, Init(setup), run) && SaysWhy(setup.cfg)
    ensures var emitted := Run(setup, Init(setup), run).emitted;
            var t := CountedAll(emitted);
            && AllSettled(setup.cfg, emitted)
            && t.dirs + t.files + t.symlinks + t.others == |emitted|
            && t.hashed + t.partial <= t.files
            && (!setup.cfg.noHash ==> t.files <= t.hashed + t.partial + t.errors)
  {
    hide Init, Legal, Run, RingVisit, Settled, SaysWhy, WalkResult;
    var emitted := Run(setup, Init(setup), run).emitted;
    WalkIsRingWalk(setup, run);
    ScanSettles(setup.cfg, Cells(setup), setup.root, setup.tree);
    forall e | e in emitted ensures Settled(setup.cfg, e) { assert e in WalkOf(setup).log; }
    TotalIsEntries(emitted);
    SettledCounts(setup.cfg, emitted);
  }
}
