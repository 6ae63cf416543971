/** A fingerprint taken, stored, reopened and compared: the five parts composed. */
module EndToEnd {
  import opened Bytes
  import opened Canon
  import opened ScanEntry
  import opened Walk
  import opened EntryCodec
  import opened BlockCodec
  import opened Layout
  import opened Container
  import opened FileWriter
  import opened WholeFile
  import opened FileReader
  import opened Classification
  import opened MapDiff
  import opened Prune
  import opened Pipeline
  import opened PipelineSafety
  import opened CompareModes
  import opened CompareRun
  import opened RingWalk
  import opened RingAgree
  import opened RingFaithful
  import opened RingCompare
  import opened Summarize
  import J = Join

  // ---- the two commands in place ---------------------------------------------------------

  lemma AcceptSnoc(calls: seq<Entry>, i: nat)
    requires i < |calls|
    ensures AcceptAll(calls[..i + 1]) == Accept(AcceptAll(calls[..i]), calls[i])
  {
    assert calls[..i + 1][..i] == calls[..i];
  }

  lemma {:induction false} AllAccepted(entries: seq<Entry>)
    requires Ordered(entries) && Named(entries)
    ensures AcceptAll(entries) == entries
  {
    if entries != [] {
      var n := |entries| - 1;
      assert entries == entries[..n] + [entries[n]] && entries[n] in entries;
      PathsConcat(entries[..n], [entries[n]]);
      IncreasingParts(Paths(entries[..n]), Paths([entries[n]]));
      if n > 0 { assert Less(Paths(entries)[n - 1], Paths(entries)[n]); }
      hide Less;
      AllAccepted(entries[..n]);
    }
  }

  /** Any sequence of Add calls, then Close: the file holds exactly the accepted entries. Rejected calls, be they
      for want of a path or out of order, leave no trace; only a failed write stops. */
  method WriteAll(w: Sink, z: Codecs, meta: Bytes, calls: seq<Entry>) returns (ok: bool, ghost blocks: seq<seq<Entry>>)
    requires w.data == []
    modifies w
    ensures ok ==>
              && w.data == File(z, meta, blocks) && Flatten(blocks) == AcceptAll(calls)
              && AllCut(blocks) && FullButLast(blocks)
              && Ordered(AcceptAll(calls)) && Named(AcceptAll(calls))
    ensures !ok ==> w.broke
  {
    hide Accept, AcceptAll, File, AllCut, AllFull, FullButLast, Ordered, Named, Flatten;
    ok, blocks := false, [];
    var writer := NewWriter(w, z, meta);
    if writer == null { return; }
    NothingAccepted();
    assert calls[..0] == [];
    for i := 0 to |calls|
      invariant fresh(writer) && writer.w == w && writer.z == z && writer.meta == meta
      invariant writer.Valid() && !writer.closed && !writer.failed && writer.accepted == AcceptAll(calls[..i])
    {
      AcceptSnoc(calls, i);
      var r := writer.Add(calls[i]);
      if r == IoError { return; }
    }
    assert calls[..|calls|] == calls;
    ok := writer.Close();
    blocks := writer.flushed;
  }

  lemma NothingAccepted()
    ensures AcceptAll([]) == []
  {
  }

  /** baseline: every entry the walk emits is added, and none is rejected. */
  method Baseline(w: Sink, z: Codecs, meta: Bytes, entries: seq<Entry>)
    returns (ok: bool, ghost blocks: seq<seq<Entry>>)
    requires w.data == [] && Ordered(entries) && Named(entries)
    modifies w
    ensures ok ==>
              && w.data == File(z, meta, blocks) && Flatten(blocks) == entries
              && AllCut(blocks) && FullButLast(blocks)
    ensures !ok ==> w.broke
  {
    AllAccepted(entries);
    ok, blocks := WriteAll(w, z, meta, entries);
  }

  datatype Outcome =
    | NotOpened | NotVerified | NotRead | Stopped
    | Done(emitted: seq<Change>, tally: J.Tally, compared: nat, dirs: set<Path>, expected: nat, exit: Exit)

  /** A file baseline wrote, with what the format limits. */
  ghost predicate Written(z: Codecs, meta: Bytes, blocks: seq<seq<Entry>>) {
    && Lossless(z) && Sized(z, meta, blocks) && AllCut(blocks) && |Flatten(blocks)| <= MAX_I64
    && Ordered(Flatten(blocks)) && Named(Flatten(blocks)) && AllFit(blocks)
  }

  ghost function BaseOf(blocks: seq<seq<Entry>>): seq<Entry> { StoredAll(Flatten(blocks)) }

  /** Feed the live entries and finish the join. */
  method JoinAll(base: seq<Entry>, live: seq<Entry>, o: J.Options, refuses: Change -> bool)
    returns (ok: bool, emitted: seq<Change>, tally: J.Tally, compared: nat)
    requires Ordered(base) && Ordered(live)
    ensures ok ==>
              && emitted == J.Kept(o, Merge(base, live)) && tally == J.TallyAll(o, Merge(base, live))
              && compared == Common(base, live)
    ensures !ok ==> emitted != [] && refuses(emitted[|emitted| - 1])
  {
    hide Ordered, Less, Merge, Common, J.Kept, J.TallyAll, J.Joiner.Valid, J.Total, J.Count;
    ok, emitted, tally, compared := false, [], J.Tally(map[], 0, 0), 0;
    var source := new J.Source(base, false);
    var joiner := J.NewJoiner(source, o, refuses);
    if joiner == null { return; }
    var box := new J.Box();
    for i := 0 to |live|
      invariant joiner.Valid() && fresh(joiner) && fresh(source) && fresh(source.cell) && fresh(box)
          && box != source.cell
      invariant joiner.base == source && joiner.opts == o && joiner.refuses == refuses && !source.breaks
          && source.entries == base
      invariant joiner.fed == live[..i] && !joiner.done && (i == 0 ==> !joiner.started)
      invariant i > 0 ==> joiner.lastLive == live[i - 1].path
    {
      box.e := live[i];
      if i > 0 { Increases(live, i); }
      var r := joiner.Feed(box);
      if r != J.Taken {
        emitted := joiner.emitted;
        return;
      }
      assert live[..i + 1] == live[..i] + [live[i]];
    }
    assert live[..|live|] == live;
    var r := joiner.Finish();
    ok := r == J.Taken;
    emitted, tally, compared := joiner.emitted, joiner.tally, joiner.compared;
  }

  lemma Increases(live: seq<Entry>, i: nat)
    requires Ordered(live) && 0 < i < |live|
    ensures Less(live[i - 1].path, live[i].path)
  {
    assert Less(Paths(live)[i - 1], Paths(live)[i]);
  }

  lemma WrittenOpens(z: Codecs, meta: Bytes, blocks: seq<seq<Entry>>)
    requires Written(z, meta, blocks)
    ensures var r := OpenFile(z, File(z, meta, blocks));
            && r.Open? && Verifies(z, r.image) && |r.image.file| >= 40 && r.image.meta == meta
            && r.image.entries == |Flatten(blocks)| && r.image.errors == CountErrors(Flatten(blocks))
            && Indexed(r.image.index) && FromBlock(z, r.image, 0) == Stream(BaseOf(blocks), AtEof)
    ensures Ordered(BaseOf(blocks))
  {
    hide Lossless, Sized, AllCut, File, Verifies, Stored;
    WholeFileRoundTrip(z, meta, blocks, Flatten(blocks));
    var img := OpenFile(z, File(z, meta, blocks)).image;
    assert Verifies(z, img) ==> |img.file| >= 40 by { VerifiedIsLong(z, img); }
  }

  lemma VerifiedIsLong(z: Codecs, img: Image)
    ensures Verifies(z, img) ==> |img.file| >= 40
  {
  }

  /** The round trip for any sequence of Add calls. */
  lemma AnyCallsRoundTrip(z: Codecs, meta: Bytes, calls: seq<Entry>, blocks: seq<seq<Entry>>)
    requires Lossless(z) && Sized(z, meta, blocks) && AllCut(blocks) && AllFit(blocks)
    requires Flatten(blocks) == AcceptAll(calls) && Ordered(AcceptAll(calls)) && Named(AcceptAll(calls))
    requires |AcceptAll(calls)| <= MAX_I64
    ensures var r := OpenFile(z, File(z, meta, blocks));
            && r.Open? && Verifies(z, r.image)
            && r.image.entries == |AcceptAll(calls)| && r.image.errors == CountErrors(AcceptAll(calls))
            && Indexed(r.image.index) && FromBlock(z, r.image, 0) == Stream(StoredAll(AcceptAll(calls)), AtEof)
  {
    hide Lossless, Sized, AllCut, AllFit, File, Verifies, Stored, AcceptAll, OpenFile, FromBlock, Ordered, Named;
    WrittenOpens(z, meta, blocks);
  }

  lemma {:induction false} ThroughAll(es: seq<Entry>)
    ensures Through(es, (e: Entry) => false) == es
  {
    if es != [] { ThroughAll(es[1..]); }
  }

  /** What reading a file through gives, if it opens. */
  ghost function Recorded(z: Codecs, file: Bytes): Stream
    requires OpenFile(z, file).Open?
  {
    OpenedIndexed(z, file);
    FromBlock(z, OpenFile(z, file).image, 0)
  }

  /**
   * compare, given what its walk emits: open, verify, learn the directories, join, count, decide. Of any file, as long
   * as what it holds is in order, which a written one does: it is turned down exactly when it does not open, when its
   * digest is not that of the bytes before it, or when it cannot be read to its end.
   */
  method Compare(z: Codecs, file: Bytes, live: seq<Entry>, o: J.Options, refuses: Change -> bool,
                 volatile: Path -> bool, failOnDiff: bool)
    returns (r: Outcome)
    requires Ordered(live) && (OpenFile(z, file).Open? ==> Ordered(Recorded(z, file).entries))
    ensures r == NotOpened <==> OpenFile(z, file).Refused?
    ensures |file| >= 144 || r == NotOpened
    ensures r == NotVerified <==> r != NotOpened && z.sha(file[..|file| - 40]) != file[|file| - 40..|file| - 8]
    ensures r == NotRead <==> r != NotOpened && r != NotVerified && Recorded(z, file).end != AtEof
    ensures r == Stopped ==> exists c: Change :: refuses(c)
    ensures r.Done? ==>
              var base := Recorded(z, file).entries;
              && r.emitted == J.Kept(o, Merge(base, live))
              && r.tally == J.TallyAll(o, Merge(base, live))
              && r.compared == Common(base, live)
              && r.dirs == DirPaths(base)
              && r.expected == CountVolatile(volatile, r.emitted)
              && (r.exit == ExitDiff <==> failOnDiff && exists c :: c in r.emitted && !volatile(c.path))
  {
    hide OpenFile, Verifies, FromBlock, Ordered, Merge, Common, J.Kept, J.TallyAll, J.Total, Through, Indexed;
    var found := NewReader(z, file);
    if found.Refused? { return NotOpened; }
    OpenedIndexed(z, file);
    DigestRecorded(z, file);
    var intact := Verify(z, found.image);
    if !intact { return NotVerified; }
    ThroughAll(Recorded(z, file).entries);
    var known, stopped, end := Iterate(z, found.image, (e: Entry) => false);
    if stopped || end != AtEof { return NotRead; }
    var dirs := LoadDirs(known);
    var ok, emitted, tally, compared := JoinAll(known, live, o, refuses);
    if !ok { return Stopped; }
    TallyIsEmitted(o, known, live);
    var exit, expected := Decide(emitted, J.Total(tally.counts), volatile, failOnDiff);
    r := Done(emitted, tally, compared, dirs, expected, exit);
  }

  /** A written file opens, verifies, and is read to its end as what was written, so only a refusal stops Compare. */
  lemma WrittenIsRecorded(z: Codecs, meta: Bytes, blocks: seq<seq<Entry>>)
    requires Written(z, meta, blocks)
    ensures var file := File(z, meta, blocks);
            && OpenFile(z, file).Open? && Recorded(z, file) == Stream(BaseOf(blocks), AtEof) && Ordered(BaseOf(blocks))
            && |file| >= 144 && z.sha(file[..|file| - 40]) == file[|file| - 40..|file| - 8]
  {
    hide Written, File, OpenFile, Verifies, FromBlock, Ordered, BaseOf;
    WrittenOpens(z, meta, blocks);
    VerifiesExactly(z, File(z, meta, blocks));
  }

  lemma TallyIsEmitted(o: J.Options, base: seq<Entry>, live: seq<Entry>)
    ensures J.Total(J.TallyAll(o, Merge(base, live)).counts) == |J.Kept(o, Merge(base, live))|
  {
    hide Merge, J.Kept, J.TallyAll, J.Total;
    J.MergeNeverNone(base, live);
    J.TallyTotals(o, Merge(base, live));
  }

  // ---- the theorem -----------------------------------------------------------------------

  /** A run of Walk that returned nil. */
  ghost predicate Completed(setup: Setup, run: seq<Step>, emitted: seq<Entry>) {
    setup.jobs > 0 && WellFormed(setup.tree) && Yields(setup, run, emitted)
  }

  lemma CompletedWalk(setup: Setup, run: seq<Step>, emitted: seq<Entry>)
    requires Completed(setup, run, emitted)
    ensures setup.jobs > 0 && emitted == WalkOf(setup).log && Ordered(emitted)
    ensures emitted == Scan(setup.cfg, setup.root, setup.tree) <==> DevicesAgree(setup)
  {
    hide Scan, Pipeline.Run, Legal, Init, FaithfulWalk, RingVisit, IsPrefix, WellFormed;
    WalkIsRingWalk(setup, run);
    WalkIsSequential(setup, run);
    EmittedInOrder(setup, run);
  }

  lemma StoredWalk(setup: Setup, blocks: seq<seq<Entry>>)
    requires setup.jobs > 0 && Flatten(blocks) == WalkOf(setup).log
    ensures BaseOf(blocks) == Flatten(blocks)
  {
    hide RingVisit, Flatten;
    var es := Flatten(blocks);
    RingKeepsDigests(setup.cfg, Cells(setup), [], setup.root, setup.tree, 0, setup.tree.info.dev);
    forall i | 0 <= i < |es| ensures es[i].hashed || es[i].hash == NO_HASH { assert es[i] in es; }
    StoredIsIdentity(es);
  }

  /**
   * Whatever the mount policies, the number of jobs and the schedules of the two scans: what is read back is what
   * the first walk emitted, which is the sequential walk exactly when its late reads change no decision that shows;
   * and pruning costs nothing but the changes below directories the first did not see exactly when the second's do
   * not.
   */
  lemma WholeComparison(cfg: Config, cfg': Config, root: Path, was: Node, now: Node, jobs: nat, jobs': nat,
                        run: seq<Step>, run': seq<Step>, blocks: seq<seq<Entry>>, live: seq<Entry>)
    requires was.info.typ == TYPE_DIR && root != []
    requires Completed(Setup(cfg, root, was, jobs), run, Flatten(blocks))
    requires Completed(Setup(Knowing(cfg', DirPaths(BaseOf(blocks))), root, now, jobs'), run', live)
    ensures var base, deep := BaseOf(blocks), Scan(Deep(cfg'), root, now);
            var first, second := Setup(cfg, root, was, jobs), Setup(Knowing(cfg', DirPaths(base)), root, now, jobs');
            && base == WalkOf(first).log && live == WalkOf(second).log && Ordered(base) && Ordered(live)
            && (base == Scan(cfg, root, was) <==> DevicesAgree(first))
            && (Merge(base, live) == Visible(NewDirs(base, deep), DirPaths(base), Merge(base, deep))
                <==> DevicesAgree(second))
  {
    hide Scan, Merge, Visible, BaseOf, Ordered, Flatten, FaithfulWalk, RingVisit, Yields, WellFormed;
    var first := Setup(cfg, root, was, jobs);
    CompletedWalk(first, run, Flatten(blocks));
    StoredWalk(first, blocks);
    var base := BaseOf(blocks);
    var second := Setup(Knowing(cfg', DirPaths(base)), root, now, jobs');
    CompletedWalk(second, run', live);
    assert Prune.Records(cfg, Cells(first), root, was, base);
    PruningIsExact(cfg', Cells(second), base, root, now);
  }

  /** Of two runs of compare on one tree, one in mode deep and one in another mode, with whatever jobs: their reports
      agree exactly when ModesAgreeOnErrors says so, if no late read of either changes a decision that shows. */
  lemma ModesOfRuns(cfg: Config, base: seq<Entry>, root: Path, tree: Node, o: J.Options, jobs: nat, jobs': nat,
                    run: seq<Step>, run': seq<Step>, deep: seq<Entry>, live: seq<Entry>)
    requires Fingerprint(base, root) && root != []
    requires Completed(Setup(Deep(cfg), root, tree, jobs), run, deep)
    requires Completed(Setup(Knowing(cfg, DirPaths(base)), root, tree, jobs'), run', live)
    requires DevicesAgree(Setup(Deep(cfg), root, tree, jobs))
    requires DevicesAgree(Setup(Knowing(cfg, DirPaths(base)), root, tree, jobs'))
    ensures var dirs, news := DirPaths(base), NewDirs(base, deep);
            CompareModes.SeenAll(WithErrors, dirs, J.Kept(o, Merge(base, live)))
            == CompareModes.SeenAll(WithErrors, dirs, Shown(news, J.Kept(DeepOptions(o), Merge(base, deep))))
            <==> forall e | e in deep :: !ErrorShows(o, news, dirs, CompareModes.Recorded(base, e.path), e)
  {
    hide Scan, Merge, RingVisit, Yields, WellFormed, FaithfulWalk, Fingerprint, J.Kept, CompareModes.SeenAll, Shown,
         DirPaths, NewDirs, ErrorShows, CompareModes.Recorded;
    CompletedWalk(Setup(Deep(cfg), root, tree, jobs), run, deep);
    CompletedWalk(Setup(Knowing(cfg, DirPaths(base)), root, tree, jobs'), run', live);
    ModesAgreeOnErrors(cfg, base, root, tree, o);
  }

  lemma {:induction false} OnePerError(base: seq<Entry>, live: seq<Entry>)
    requires |base| == |live|
    ensures |CompareRun.Unreadable(base, live)| == CountErrors(base)
    ensures forall c | c in CompareRun.Unreadable(base, live) :: c.op == OpUnreadable
  {
    if base != [] {
      OnePerError(base[1..], live[1..]);
      ErrorsCons(base[0], base[1..]);
      assert base == [base[0]] + base[1..];
    }
  }

  lemma {:induction false} ErrorsCons(e: Entry, es: seq<Entry>)
    ensures CountErrors([e] + es) == (if e.err != [] then 1 else 0) + CountErrors(es)
  {
    if es == [] {
      assert [e] + [] == [e] && [e][..0] == [];
    } else {
      var n := |es| - 1;
      ErrorsCons(e, es[..n]);
      assert ([e] + es)[..|es|] == [e] + es[..n];
    }
  }

  /** The second walk, times apart, is the first exactly when the two numbers of cells give the same walk of the tree,
      as equal ones do, and as two that late reads do not mislead. */
  lemma SameWalk(cfg: Config, root: Path, tree: Node, later: Node, jobs: nat, jobs': nat, base: seq<Entry>,
                 live: seq<Entry>)
    requires WellFormed(tree) && Retimed(tree, later) && jobs > 0 && jobs' > 0
    requires base == WalkOf(Setup(Deep(cfg), root, tree, jobs)).log
    requires live == WalkOf(Setup(Knowing(cfg, DirPaths(base)), root, later, jobs')).log
    ensures var agree := WalksAgree(Deep(cfg), 4 * jobs, 4 * jobs', root, tree);
            && (SameButTimes(base, live) <==> agree) && (jobs == jobs' ==> agree)
            && (DevicesAgree(Setup(Deep(cfg), root, tree, jobs)) && DevicesAgree(Setup(Deep(cfg), root, tree, jobs'))
                ==> agree)
  {
    hide RingVisit, Retimed, WalksAgree, WellFormed, FaithfulWalk, Scan, SameButTimes;
    WalkAgain(cfg, 4 * jobs, 4 * jobs', root, tree, later);
    AgreeWithSelf(Deep(cfg), 4 * jobs, root, tree);
    RingScansAgree(Deep(cfg), 4 * jobs, 4 * jobs', root, tree);
    RingScanIsScan(Deep(cfg), 4 * jobs, root, tree);
    RingScanIsScan(Deep(cfg), 4 * jobs', root, tree);
  }

  /**
   * Self-comparison: scan, write, reopen, scan the same tree again with other modification times, under any mount
   * policy. When the two numbers of cells give the same walk, which they do exactly when the second walk is the
   * first, times apart, every entry is compared, and the report is one ?E for each entry the footer counts as an
   * error.
   */
  lemma SilentOnItself(cfg: Config, root: Path, tree: Node, later: Node, jobs: nat, jobs': nat, run: seq<Step>,
                       run': seq<Step>, blocks: seq<seq<Entry>>, live: seq<Entry>)
    requires tree.info.typ == TYPE_DIR && root != [] && Retimed(tree, later)
    requires Completed(Setup(Deep(cfg), root, tree, jobs), run, Flatten(blocks))
    requires Completed(Setup(Knowing(cfg, DirPaths(BaseOf(blocks))), root, later, jobs'), run', live)
    requires var base := Flatten(blocks);
             forall i | 0 <= i < |base| && i < |live| ::
               base[i].typ == TYPE_FILE && !base[i].hashed ==> live[i].mtime == base[i].mtime
    ensures var base, agree := BaseOf(blocks), WalksAgree(Deep(cfg), 4 * jobs, 4 * jobs', root, tree);
            && (SameButTimes(base, live) <==> agree)
            && (agree ==>
                  && Common(base, live) == |base| == |Flatten(blocks)|
                  && |Merge(base, live)| == CountErrors(Flatten(blocks))
                  && forall c | c in Merge(base, live) :: c.op == OpUnreadable)
  {
    hide Scan, Merge, Common, BaseOf, Flatten, Retimed, CountErrors, WalksAgree, RingVisit, Yields, WellFormed,
         FaithfulWalk;
    var first := Setup(Deep(cfg), root, tree, jobs);
    CompletedWalk(first, run, Flatten(blocks));
    StoredWalk(first, blocks);
    var base := BaseOf(blocks);
    CompletedWalk(Setup(Knowing(cfg, DirPaths(base)), root, later, jobs'), run', live);
    SameWalk(cfg, root, tree, later, jobs, jobs', base, live);
    if WalksAgree(Deep(cfg), 4 * jobs, 4 * jobs', root, tree) {
      assert AllTwins(base, live);
      TwinsMerge(base, live);
      OnePerError(base, live);
    }
  }

  // ---- summaries -------------------------------------------------------------------------

  /** Summarize runs the counting walk of the directory it is given. */
  ghost predicate Summarizes(o: J.Options, cfg: Config, cells: nat, root: Path, tree: Node)
    requires cells > 0
  {
    o.summarize.Some? && forall path, node, depth, pdev ::
      Visited(Deep(cfg), root, tree, 0, tree.info.dev, path, node, depth, pdev) && node.info.typ == TYPE_DIR ==>
        o.summarize.value(path) == Some(SumBelow(path, RingScan(Counting(cfg), cells, path, node)))
  }

  /** The counting walk meets what SummarizeDir asks of its entries. */
  lemma CountedEntries(cfg: Config, cells: nat, path: Path, node: Node)
    requires WellFormed(node) && node.info.typ == TYPE_DIR && cells > 0
    ensures forall e | e in RingScan(Counting(cfg), cells, path, node) ::
              AtOrBelow(e.path, path) && (e.path == path ==> e.typ == TYPE_DIR)
  {
    hide Below, Counting, Finished, RingKids, Enters;
    var c, dev := Counting(cfg), node.info.dev;
    RingVisitInside(c, cells, [], path, node, 0, dev);
    var own := Own(c, path, node, 0, dev).log;
    RingKidsUnder(c, cells, [] + own, path, node.kids, 1, 0);
    NotBelowSelf(path);
    forall e | e in RingScan(c, cells, path, node) && e.path == path ensures e.typ == TYPE_DIR {
      if e in RingKids(c, cells, [] + own, path, node.kids, 1, 0).log { UnderIsBelow(path, node.kids, e.path); }
    }
  }

  /**
   * The summary reported with an added directory is the count of the counting walk, late reads included; another
   * number of cells gives the same one when the two walks agree. When its late reads change no decision that shows,
   * it counts what deep mode would have visited below the directory, under any mount policy, exactly when nothing
   * that is counted there is out of deep mode's reach.
   */
  lemma ReportedSummary(cfg: Config, cells: nat, base: seq<Entry>, live: seq<Entry>, root: Path, tree: Node,
                        o: J.Options, c: Change, node: Node, depth: nat, pdev: u64)
    requires WellFormed(tree) && cells > 0 && Summarizes(o, cfg, cells, root, tree)
    requires c in J.Kept(o, Merge(base, live)) && c.op == OpAddedDir
    requires Visited(Deep(cfg), root, tree, 0, tree.info.dev, c.path, node, depth, pdev) && node.info.typ == TYPE_DIR
    ensures c.summary == Some(SumBelow(c.path, RingScan(Counting(cfg), cells, c.path, node)))
    ensures forall n | n > 0 && WalksAgree(Counting(cfg), cells, n, c.path, node) ::
              c.summary == Some(SumBelow(c.path, RingScan(Counting(cfg), n, c.path, node)))
    ensures FaithfulWalk(Counting(cfg), cells, c.path, node) ==>
              (c.summary == Some(SumBelow(c.path, Scan(Deep(cfg), root, tree)))
               <==> Uncut(cfg, c.path, node, 0, depth, pdev))
  {
    hide Merge, J.Kept, J.IsReported, Scan, SumBelow, Visited, Uncut, WellFormed, Deep, Counting, FaithfulWalk,
         RingScan, WalksAgree, Part;
    KeptMember(o, Merge(base, live), c);
    var d :| d in Merge(base, live) && J.IsReported(o, d) && c == J.Presented(o, d);
    SummaryIsDeep(cfg, root, tree, c.path, node, depth, pdev);
    VisitedEntry(Deep(cfg), root, tree, 0, tree.info.dev, c.path, node, depth, pdev);
    RingScanIsScan(Counting(cfg), cells, c.path, node);
    forall n | n > 0 && WalksAgree(Counting(cfg), cells, n, c.path, node)
      ensures RingScan(Counting(cfg), n, c.path, node) == RingScan(Counting(cfg), cells, c.path, node)
    {
      RingScansAgree(Counting(cfg), cells, n, c.path, node);
    }
  }
}
