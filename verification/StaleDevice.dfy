/**
 * The late read of e.Dev does change what is walked: with mounts not crossed, a directory's cell is refilled
 * while its children are still being visited, and a child on the directory's own device is then taken for a
 * mount point and left out. No interleaving avoids it; a larger buffer does.
 */
module StaleDevice {
  import opened Bytes
  import opened Canon
  import opened ScanEntry
  import opened Walk
  import opened RingWalk
  import opened RingFaithful
  import opened Pipeline
  import opened PipelineSafety
  import opened PipelineLiveness

  const CONFIG: Config :=
    Config((p: Path) => false, MountSame, (p: Path) => FSUnknown, 10, (e: Entry) => true, true, 0,
           (p: Path) => OpenFails([]))

  function Dir(dev: u64, kids: Listing): Node {
    Node(Info(TYPE_DIR, 0, 0, 0, 0, 0, dev, 0, 0), LinkFails([]), None, kids)
  }

  /** /d is a mount point; /e, on the root's own device, holds f. */
  function E(): Node { Dir(1, Dirent([102], Present(Dir(1, End)), End)) }
  function FromE(): Listing { Dirent([101], Present(E()), End) }
  function FromD(): Listing { Dirent([100], Present(Dir(2, End)), FromE()) }
  function FromC(): Listing { Dirent([99], Present(Dir(1, End)), FromD()) }
  function FromB(): Listing { Dirent([98], Present(Dir(1, End)), FromC()) }
  function FromA(): Listing { Dirent([97], Present(Dir(1, End)), FromB()) }

  function Stale(jobs: nat): Setup { Setup(CONFIG, ROOT, Dir(1, FromA()), jobs) }

  lemma TreeWellFormed()
    ensures WellFormed(Dir(1, FromA()))
  {
    assert Listed(E().kids);
    assert Listed(FromE());
    assert Listed(FromD());
    assert Listed(FromC());
    assert Listed(FromB());
    assert Listed(FromA());
  }

  // ---- four cells ------------------------------------------------------------------------

  lemma EmptyDirectory(before: seq<Entry>, name: Bytes, dev: u64, rest: Listing) returns (e: Entry)
    ensures e.dev == dev
    ensures RingKids(CONFIG, 4, before, ROOT, Dirent(name, Present(Dir(dev, End)), rest), 1, 0).log
         == [e] + RingKids(CONFIG, 4, before + [e], ROOT, rest, 1, 0).log
  {
    hide DeviceOf, Join, Enters, Draft, Finished;
    var path, x := Join(ROOT, name), DeviceOf(4, before, 0 % 4);
    var own := Own(CONFIG, path, Dir(dev, End), 1, x);
    e := own.log[0];
    assert own.log == [e];
    PlusLaws(own, NOTHING, NOTHING);
    assert RingVisit(CONFIG, 4, before, path, Dir(dev, End), 1, x).log == [e];
  }

  /** The fifth entry is in the root's cell. */
  lemma RootCell(before: seq<Entry>)
    requires |before| == 5
    ensures DeviceOf(4, before, 0) == before[4].dev
  {
  }

  lemma MountRefused(before: seq<Entry>)
    requires |before| == 5 && before[4].dev == 2
    ensures |RingKids(CONFIG, 4, before, ROOT, FromE(), 1, 0).log| == 1
  {
    hide DeviceOf, Join, Own;
    RootCell(before);
    assert !Enters(CONFIG, Join(ROOT, [101]), E(), 1, 2);
    var one := RingOne(CONFIG, 4, before, Join(ROOT, [101]), Present(E()), 1, 2);
    assert RingKids(CONFIG, 4, before + one.log, ROOT, End, 1, 0) == NOTHING;
  }

  lemma SixEntries()
    ensures |RingScan(CONFIG, 4, ROOT, Dir(1, FromA()))| == 6
  {
    hide DeviceOf, Join, Own, RingKids;
    var root := Dir(1, FromA());
    var r := Own(CONFIG, ROOT, root, 0, 1).log[0];
    assert Own(CONFIG, ROOT, root, 0, 1).log == [r];
    assert Enters(CONFIG, ROOT, root, 0, 1);
    assert [] + [r] == [r];
    var a := EmptyDirectory([r], [97], 1, FromB());
    var b := EmptyDirectory([r] + [a], [98], 1, FromC());
    var c := EmptyDirectory([r] + [a] + [b], [99], 1, FromD());
    var d := EmptyDirectory([r] + [a] + [b] + [c], [100], 2, FromE());
    MountRefused([r] + [a] + [b] + [c] + [d]);
  }

  lemma KidsCount(dir: Path, kids: Listing, depth: nat)
    requires kids.Dirent? && kids.stat.Present?
    ensures |VisitKids(CONFIG, dir, kids, depth, 1)|
         == |Visit(CONFIG, Join(dir, kids.name), kids.stat.node, depth, 1)|
            + |VisitKids(CONFIG, dir, kids.rest, depth, 1)|
  {
    hide Join;
  }

  lemma NoKids(path: Path, dev: u64, depth: nat)
    ensures |Visit(CONFIG, path, Dir(dev, End), depth, 1)| == 1
  {
    hide Enters, Draft;
  }

  lemma SevenEntries()
    ensures |Scan(CONFIG, ROOT, Dir(1, FromA()))| == 7
  {
    hide Join, VisitKids, Visit, Draft;
    KidsCount(ROOT, FromA(), 1);
    KidsCount(ROOT, FromB(), 1);
    KidsCount(ROOT, FromC(), 1);
    KidsCount(ROOT, FromD(), 1);
    KidsCount(ROOT, FromE(), 1);
    NoKids(Join(ROOT, [97]), 1, 1);
    NoKids(Join(ROOT, [98]), 1, 1);
    NoKids(Join(ROOT, [99]), 1, 1);
    NoKids(Join(ROOT, [100]), 2, 1);
    var p := Join(ROOT, [101]);
    KidsCount(p, E().kids, 2);
    NoKids(Join(p, [102]), 1, 2);
    Nothing(ROOT, 1);
    Nothing(p, 2);
    assert Enters(CONFIG, p, E(), 1, 1) && Enters(CONFIG, ROOT, Dir(1, FromA()), 0, 1);
    Entered(p, E(), 1);
    Entered(ROOT, Dir(1, FromA()), 0);
  }

  lemma Nothing(dir: Path, depth: nat)
    ensures VisitKids(CONFIG, dir, End, depth, 1) == []
  {
  }

  lemma Entered(path: Path, node: Node, depth: nat)
    requires Enters(CONFIG, path, node, depth, 1)
    ensures |Visit(CONFIG, path, node, depth, 1)| == 1 + |VisitKids(CONFIG, path, node.kids, depth + 1, node.info.dev)|
  {
  }

  /** With one job Walk returns nil having emitted six of the seven entries, whatever the interleaving. */
  lemma OneJobLosesAnEntry(run: seq<Step>)
    requires var setup := Stale(1); Legal(setup, Init(setup), run)
    requires var s := Run(Stale(1), Init(Stale(1)), run); s.consumer.Returned? && WalkResult(s) == Nil
    ensures |Run(Stale(1), Init(Stale(1)), run).emitted| == 6 && |Scan(CONFIG, ROOT, Dir(1, FromA()))| == 7
    ensures WellFormed(Dir(1, FromA())) && !DevicesAgree(Stale(1))
  {
    hide Init, Legal, Run, WalkResult, Scan, RingVisit, IsPrefix, WellFormed, FaithfulWalk, FromA;
    WalkIsRingWalk(Stale(1), run);
    SixEntries();
    SevenEntries();
    TreeWellFormed();
    WalkIsSequential(Stale(1), run);
  }

  /** With two jobs it emits all seven. */
  lemma TwoJobsLoseNothing(run: seq<Step>)
    requires var setup := Stale(2); Legal(setup, Init(setup), run)
    requires var s := Run(Stale(2), Init(Stale(2)), run); s.consumer.Returned? && WalkResult(s) == Nil
    ensures Run(Stale(2), Init(Stale(2)), run).emitted == Scan(CONFIG, ROOT, Dir(1, FromA()))
  {
    hide Init, Legal, Run, WalkResult, Scan, IsPrefix, WellFormed, FaithfulWalk, FromA;
    SevenEntries();
    TreeWellFormed();
    WhenFaithful(CONFIG, 8, ROOT, Dir(1, FromA()));
    WalkIsSequential(Stale(2), run);
  }

  /** There are such runs. */
  lemma BothSucceed() returns (one: seq<Step>, two: seq<Step>)
    ensures Legal(Stale(1), Init(Stale(1)), one) && Legal(Stale(2), Init(Stale(2)), two)
    ensures |Run(Stale(1), Init(Stale(1)), one).emitted| == 6 && |Run(Stale(2), Init(Stale(2)), two).emitted| == 7
  {
    hide Init, Legal, Run, WalkResult, Scan;
    one := SomeRunSucceeds(Stale(1));
    two := SomeRunSucceeds(Stale(2));
    OneJobLosesAnEntry(one);
    TwoJobsLoseNothing(two);
  }
}
