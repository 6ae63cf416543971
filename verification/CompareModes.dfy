/** Modes summary and skip against mode deep, after the two filters of the join (cmd/osfp/compare.go). */
module CompareModes {
  import opened Bytes
  import opened Canon
  import opened ScanEntry
  import opened Walk
  import opened RingWalk
  import opened RingFaithful
  import opened Classification
  import opened MapDiff
  import opened Prune
  import J = Join

  /** How closely two reports are compared: without summaries, or also without the listing errors of
      directories the fingerprint does not know, which only deep mode sees. */
  datatype View = WithErrors | WithoutErrors

  function Seen(v: View, dirs: set<Path>, c: Change): Change {
    if v.WithErrors? then c.(summary := None)
    else c.(summary := None, now := if c.now.Some? then Some(Strip(dirs, c.now.value)) else None)
  }

  function SeenAll(v: View, dirs: set<Path>, cs: seq<Change>): (r: seq<Change>)
    ensures |r| == |cs|
    ensures forall i | 0 <= i < |cs| :: r[i] == Seen(v, dirs, cs[i])
  {
    seq(|cs|, i requires 0 <= i < |cs| => Seen(v, dirs, cs[i]))
  }

  lemma SeenSnoc(v: View, dirs: set<Path>, cs: seq<Change>, ds: seq<Change>)
    ensures SeenAll(v, dirs, cs + ds) == SeenAll(v, dirs, cs) + SeenAll(v, dirs, ds)
  {
    hide Seen;
  }

  /** The changes that are not strictly below a new directory. */
  function Shown(news: set<Path>, cs: seq<Change>): seq<Change> {
    if cs == [] then []
    else Shown(news, cs[..|cs| - 1]) + if Concealed(news, cs[|cs| - 1].path) then [] else [cs[|cs| - 1]]
  }

  lemma ShownSnoc(news: set<Path>, cs: seq<Change>, c: Change)
    ensures Shown(news, cs + [c]) == Shown(news, cs) + if Concealed(news, c.path) then [] else [c]
  {
    assert (cs + [c])[..|cs|] == cs;
  }

  lemma {:induction false} VisibleSnoc(news: set<Path>, dirs: set<Path>, cs: seq<Change>, c: Change)
    ensures Visible(news, dirs, cs + [c])
        == Visible(news, dirs, cs) + if Concealed(news, c.path) then [] else [Restated(dirs, c)]
  {
    hide Concealed, Restated, Visible;
    if cs == [] {
      NothingVisible(news, dirs);
      assert [] + [c] == [c] == [c] + [];
      VisibleOne(news, dirs, c, []);
    } else {
      var h, t := cs[0], cs[1..];
      assert cs == [h] + t && cs + [c] == [h] + (t + [c]);
      VisibleSnoc(news, dirs, t, c);
      VisibleOne(news, dirs, h, t);
      VisibleOne(news, dirs, h, t + [c]);
    }
  }

  lemma NothingVisible(news: set<Path>, dirs: set<Path>)
    ensures Visible(news, dirs, []) == []
  {
  }

  function DeepOptions(o: J.Options): J.Options { o.(summarize := None) }

  predicate Reports(o: J.Options, op: Op, p: Path) { !o.ignore(op, p) && !J.IsHidden(o, op) }

  /** Restating a change is of no consequence for the report. */
  ghost predicate Harmless(o: J.Options, dirs: set<Path>, c: Change) {
    && Restated(dirs, c).path == c.path && Restated(dirs, c).was == c.was
    && (Restated(dirs, c).op == c.op || (!Reports(o, c.op, c.path) && !Reports(o, Restated(dirs, c).op, c.path)))
  }

  /** Reported in both modes or in neither, and seen alike. */
  ghost predicate Alike(v: View, o: J.Options, dirs: set<Path>, c: Change) {
    && J.IsReported(o, Restated(dirs, c)) == J.IsReported(DeepOptions(o), c)
    && (J.IsReported(DeepOptions(o), c) ==>
          Seen(v, dirs, J.Presented(o, Restated(dirs, c))) == Seen(v, dirs, J.Presented(DeepOptions(o), c)))
  }

  lemma HarmlessAlike(o: J.Options, dirs: set<Path>, c: Change)
    requires Harmless(o, dirs, c)
    ensures Alike(WithoutErrors, o, dirs, c)
  {
    hide Classify, OpForMissing;
  }

  /** One more change, seen alike in both modes. */
  lemma OneMoreAlike(v: View, o: J.Options, news: set<Path>, dirs: set<Path>, r: seq<Change>, c: Change)
    requires Alike(v, o, dirs, c) && !Concealed(news, c.path)
    requires SeenAll(v, dirs, J.Kept(o, Visible(news, dirs, r)))
        == SeenAll(v, dirs, Shown(news, J.Kept(DeepOptions(o), r)))
    ensures SeenAll(v, dirs, J.Kept(o, Visible(news, dirs, r + [c])))
         == SeenAll(v, dirs, Shown(news, J.Kept(DeepOptions(o), r + [c])))
  {
    hide Concealed, Restated, Seen, SeenAll, J.Presented, J.IsReported, J.Kept, Shown, Visible;
    var pruned, deep := Visible(news, dirs, r), J.Kept(DeepOptions(o), r);
    VisibleSnoc(news, dirs, r, c);
    PresentedPath(DeepOptions(o), c);
    J.ReportStep(DeepOptions(o), r, c);
    ShownSnoc(news, deep, J.Presented(DeepOptions(o), c));
    J.ReportStep(o, pruned, Restated(dirs, c));
    assert deep + [] == deep && J.Kept(o, pruned) + [] == J.Kept(o, pruned);
    SeenSnoc(v, dirs, J.Kept(o, pruned), [J.Presented(o, Restated(dirs, c))]);
    SeenSnoc(v, dirs, Shown(news, deep), [J.Presented(DeepOptions(o), c)]);
    SeenOne(v, dirs, J.Presented(o, Restated(dirs, c)));
    SeenOne(v, dirs, J.Presented(DeepOptions(o), c));
  }

  /** Concealed changes play no part in either report, so only the others need to be alike. */
  lemma {:induction false} ReportsAgree(v: View, o: J.Options, news: set<Path>, dirs: set<Path>, cs: seq<Change>)
    requires forall c | c in cs :: Concealed(news, c.path) || Alike(v, o, dirs, c)
    ensures SeenAll(v, dirs, J.Kept(o, Visible(news, dirs, cs)))
         == SeenAll(v, dirs, Shown(news, J.Kept(DeepOptions(o), cs)))
  {
    hide Concealed, Restated, Seen, SeenAll, J.Presented, J.IsReported, Alike;
    if cs != [] {
      var c, r := cs[|cs| - 1], cs[..|cs| - 1];
      assert cs == r + [c];
      ReportsAgree(v, o, news, dirs, r);
      if Concealed(news, c.path) {
        VisibleSnoc(news, dirs, r, c);
        PresentedPath(DeepOptions(o), c);
        ShownSnoc(news, J.Kept(DeepOptions(o), r), J.Presented(DeepOptions(o), c));
        var pruned, deep := Visible(news, dirs, r), J.Kept(DeepOptions(o), r);
        assert pruned + [] == pruned && deep + [] == deep && Shown(news, deep) + [] == Shown(news, deep);
      } else {
        OneMoreAlike(v, o, news, dirs, r, c);
      }
    }
  }

  lemma SeenOne(v: View, dirs: set<Path>, c: Change)
    ensures SeenAll(v, dirs, [c]) == [Seen(v, dirs, c)]
  {
    hide Seen;
  }

  lemma PresentedPath(o: J.Options, c: Change)
    ensures J.Presented(o, c).path == c.path && J.Presented(o, c).op == c.op
  {
  }

  // ---- membership ------------------------------------------------------------------------

  lemma {:induction false} KeptMember(o: J.Options, cs: seq<Change>, d: Change)
    ensures d in J.Kept(o, cs) <==> exists c :: c in cs && J.IsReported(o, c) && d == J.Presented(o, c)
  {
    hide J.IsReported, J.Presented;
    if cs != [] {
      var r, l := cs[..|cs| - 1], cs[|cs| - 1];
      assert cs == r + [l];
      KeptMember(o, r, d);
    }
  }

  lemma {:induction false} ShownMember(news: set<Path>, cs: seq<Change>, d: Change)
    ensures d in Shown(news, cs) <==> d in cs && !Concealed(news, d.path)
  {
    hide Concealed;
    if cs != [] {
      assert cs == cs[..|cs| - 1] + [cs[|cs| - 1]];
      ShownMember(news, cs[..|cs| - 1], d);
    }
  }

  lemma {:induction false} VisibleMember(news: set<Path>, dirs: set<Path>, cs: seq<Change>, d: Change)
    ensures d in Visible(news, dirs, cs) <==> exists c :: c in cs && !Concealed(news, c.path) && d == Restated(dirs, c)
  {
    hide Concealed, Restated;
    if cs != [] {
      assert cs == [cs[0]] + cs[1..];
      VisibleMember(news, dirs, cs[1..], d);
    }
  }

  lemma SeenMember(v: View, dirs: set<Path>, cs: seq<Change>, d: Change)
    ensures d in SeenAll(v, dirs, cs) <==> exists c :: c in cs && d == Seen(v, dirs, c)
  {
    hide Seen;
    var bs := SeenAll(v, dirs, cs);
    if d in bs {
      var i :| 0 <= i < |bs| && bs[i] == d;
      assert cs[i] in cs;
    }
    if c :| c in cs && d == Seen(v, dirs, c) {
      var i :| 0 <= i < |cs| && cs[i] == c;
      assert bs[i] == d;
    }
  }

  // ---- when the two reports agree --------------------------------------------------------

  /** A readable non-directory of the fingerprint is now a directory that cannot be listed, and the
      filters let it through under one of the two categories it may get. */
  predicate ReplacedUnlistable(o: J.Options, was: Entry, live: Entry) {
    && was.path == live.path && was.typ != TYPE_DIR && was.err == [] && live.typ == TYPE_DIR && live.err != []
    && (Reports(o, OpUnreadable, was.path) || Reports(o, OpTypeChanged, was.path))
  }

  /** One difference per path. */
  lemma SamePath(base: seq<Entry>, live: seq<Entry>, c: Change, d: Change)
    requires Ordered(base) && Ordered(live) && c in Merge(base, live) && d in Merge(base, live) && c.path == d.path
    ensures c == d
  {
    hide Ordered, Merge, AsMap, Classify, OpForMissing;
    MergeMember(base, live, c);
    MergeMember(base, live, d);
  }

  lemma ReplacedDiffers(cfg: Config, base: seq<Entry>, root: Path, tree: Node, o: J.Options, was: Entry, live: Entry)
    requires Fingerprint(base, root) && root != [] && WellFormed(tree)
    requires was in base && live in Scan(Deep(cfg), root, tree) && ReplacedUnlistable(o, was, live)
    ensures var c := Changed(was, live);
            var dirs := DirPaths(base);
            && c != [] && c[0] in Merge(base, Scan(Deep(cfg), root, tree)) && c[0].op == OpUnreadable
               && c[0].path == was.path
            && Restated(dirs, c[0]).op == OpTypeChanged && Restated(dirs, c[0]).path == was.path
  {
    hide Scan, Fingerprint, WellFormed, Ordered, Merge, AsMap;
    var deep := Scan(Deep(cfg), root, tree);
    FingerprintFacts(base, root);
    ScanOrdered(Deep(cfg), root, tree);
    MapEntry(base, was);
    MapEntry(deep, live);
    MergeMember(base, deep, Changed(was, live)[0]);
    assert was.path !in DirPaths(base) by {
      if was.path in DirPaths(base) {
        var d :| d in base && d.typ == TYPE_DIR && d.path == was.path;
        MapEntry(base, d);
      }
    }
  }

  lemma UnlistableIsReplaced(cfg: Config, base: seq<Entry>, root: Path, tree: Node, o: J.Options, c: Change)
    requires Fingerprint(base, root) && root != [] && WellFormed(tree) && c in Merge(base, Scan(Deep(cfg), root, tree))
    requires forall was, live | was in base && live in Scan(Deep(cfg), root, tree) :: !ReplacedUnlistable(o, was, live)
    ensures Harmless(o, DirPaths(base), c)
  {
    hide Scan, Fingerprint, WellFormed, Ordered, Merge, AsMap, Restated;
    var deep := Scan(Deep(cfg), root, tree);
    FingerprintFacts(base, root);
    ScanOrdered(Deep(cfg), root, tree);
    RestatedKeeps(cfg, base, root, tree, c);
    if Unlistable(DirPaths(base), c) {
      MergeMember(base, deep, c);
      InMap(base, c.path);
      InMap(deep, c.path);
      assert !ReplacedUnlistable(o, AsMap(base)[c.path], AsMap(deep)[c.path]);
    }
  }

  /**
   * The reports of modes summary and skip are deep mode's without the changes strictly below a live
   * directory the fingerprint does not know, exactly when no readable non-directory of the
   * fingerprint has become a directory that cannot be listed.
   */
  lemma ModesAgree(cfg: Config, base: seq<Entry>, root: Path, tree: Node, o: J.Options)
    requires Fingerprint(base, root) && root != [] && WellFormed(tree)
    ensures var dirs, deep := DirPaths(base), Scan(Deep(cfg), root, tree);
            var inDeep := J.Kept(DeepOptions(o), Merge(base, deep));
            var inPruned := J.Kept(o, Merge(base, Scan(Knowing(cfg, dirs), root, tree)));
            SeenAll(WithoutErrors, dirs, inPruned) == SeenAll(WithoutErrors, dirs, Shown(NewDirs(base, deep), inDeep))
            <==> forall was, live | was in base && live in deep :: !ReplacedUnlistable(o, was, live)
  {
    hide Scan, Concealed, Fingerprint, WellFormed, Merge, Visible, Shown, J.Kept, SeenAll, NewDirs, DirPaths,
        Harmless, ReplacedUnlistable;
    var deep := Scan(Deep(cfg), root, tree);
    var dirs, news := DirPaths(base), NewDirs(base, deep);
    PruningIsSound(cfg, base, root, tree);
    if forall was, live | was in base && live in deep :: !ReplacedUnlistable(o, was, live) {
      forall c | c in Merge(base, deep) ensures Alike(WithoutErrors, o, dirs, c) {
        UnlistableIsReplaced(cfg, base, root, tree, o, c);
        HarmlessAlike(o, dirs, c);
      }
      ReportsAgree(WithoutErrors, o, news, dirs, Merge(base, deep));
    } else {
      var was, live :| was in base && live in deep && ReplacedUnlistable(o, was, live);
      ReportsDiffer(cfg, base, root, tree, o, was, live);
    }
  }

  lemma ReportsDiffer(cfg: Config, base: seq<Entry>, root: Path, tree: Node, o: J.Options, was: Entry, live: Entry)
    requires Fingerprint(base, root) && root != [] && WellFormed(tree)
    requires was in base && live in Scan(Deep(cfg), root, tree) && ReplacedUnlistable(o, was, live)
    ensures var dirs, deep := DirPaths(base), Scan(Deep(cfg), root, tree);
            var news := NewDirs(base, deep);
            SeenAll(WithoutErrors, dirs, J.Kept(o, Visible(news, dirs, Merge(base, deep))))
                != SeenAll(WithoutErrors, dirs, Shown(news, J.Kept(DeepOptions(o), Merge(base, deep))))
  {
    hide Scan, Concealed, Fingerprint, WellFormed, Merge, Visible, Shown, J.Kept, SeenAll, NewDirs, DirPaths,
        Restated, Classify;
    var dirs, deep := DirPaths(base), Scan(Deep(cfg), root, tree);
    var news, cs := NewDirs(base, deep), Merge(base, deep);
    FingerprintFacts(base, root);
    ScanOrdered(Deep(cfg), root, tree);
    RecordedIsVisible(base, root, cfg, tree);
    ReplacedDiffers(cfg, base, root, tree, o, was, live);
    var c := Changed(was, live)[0];
    var p, d := SeenAll(WithoutErrors, dirs, J.Kept(o, Visible(news, dirs, cs))),
        SeenAll(WithoutErrors, dirs, Shown(news, J.Kept(DeepOptions(o), cs)));
    if Reports(o, OpUnreadable, was.path) {
      InDeepReport(WithoutErrors, o, news, dirs, cs, c);
      assert Seen(WithoutErrors, dirs, c) in d;
      if Seen(WithoutErrors, dirs, c) in p {
        var x := FromPrunedReport(WithoutErrors, o, news, dirs, cs, Seen(WithoutErrors, dirs, c));
        RestatedKeeps(cfg, base, root, tree, x);
        SamePath(base, deep, c, x);
      }
    } else {
      InPrunedReport(WithoutErrors, o, news, dirs, cs, c);
      var b := Seen(WithoutErrors, dirs, J.Presented(o, Restated(dirs, c)));
      if b in d {
        var x := FromDeepReport(WithoutErrors, o, news, dirs, cs, b);
        PresentedPath(o, Restated(dirs, c));
        SamePath(base, deep, c, x);
      }
    }
  }

  lemma InDeepReport(v: View, o: J.Options, news: set<Path>, dirs: set<Path>, cs: seq<Change>, c: Change)
    requires c in cs && !Concealed(news, c.path) && Reports(o, c.op, c.path)
    ensures Seen(v, dirs, c) in SeenAll(v, dirs, Shown(news, J.Kept(DeepOptions(o), cs)))
  {
    hide Concealed, Shown, J.Kept, SeenAll;
    KeptMember(DeepOptions(o), cs, c);
    ShownMember(news, J.Kept(DeepOptions(o), cs), c);
    SeenMember(v, dirs, Shown(news, J.Kept(DeepOptions(o), cs)), Seen(v, dirs, c));
  }

  lemma InPrunedReport(v: View, o: J.Options, news: set<Path>, dirs: set<Path>, cs: seq<Change>, c: Change)
    requires c in cs && !Concealed(news, c.path) && Reports(o, Restated(dirs, c).op, Restated(dirs, c).path)
    ensures Seen(v, dirs, J.Presented(o, Restated(dirs, c))) in SeenAll(v, dirs, J.Kept(o, Visible(news, dirs, cs)))
  {
    hide Concealed, Visible, J.Kept, SeenAll, J.Presented, Seen, Restated;
    VisibleMember(news, dirs, cs, Restated(dirs, c));
    KeptMember(o, Visible(news, dirs, cs), J.Presented(o, Restated(dirs, c)));
    SeenMember(v, dirs, J.Kept(o, Visible(news, dirs, cs)), Seen(v, dirs, J.Presented(o, Restated(dirs, c))));
  }

  lemma FromPrunedReport(v: View, o: J.Options, news: set<Path>, dirs: set<Path>, cs: seq<Change>, b: Change)
    returns (x: Change)
    requires b in SeenAll(v, dirs, J.Kept(o, Visible(news, dirs, cs)))
    ensures x in cs && Restated(dirs, x).path == b.path && Restated(dirs, x).op == b.op
    ensures b == Seen(v, dirs, J.Presented(o, Restated(dirs, x)))
  {
    hide Concealed, Visible, J.Kept, SeenAll, Restated;
    SeenMember(v, dirs, J.Kept(o, Visible(news, dirs, cs)), b);
    var k :| k in J.Kept(o, Visible(news, dirs, cs)) && b == Seen(v, dirs, k);
    KeptMember(o, Visible(news, dirs, cs), k);
    var v :| v in Visible(news, dirs, cs) && J.IsReported(o, v) && k == J.Presented(o, v);
    VisibleMember(news, dirs, cs, v);
    x :| x in cs && !Concealed(news, x.path) && v == Restated(dirs, x);
  }

  lemma FromDeepReport(v: View, o: J.Options, news: set<Path>, dirs: set<Path>, cs: seq<Change>, b: Change)
    returns (x: Change)
    requires b in SeenAll(v, dirs, Shown(news, J.Kept(DeepOptions(o), cs)))
    ensures x in cs && x.path == b.path && x.op == b.op
    ensures b == Seen(v, dirs, J.Presented(DeepOptions(o), x))
  {
    hide Concealed, Shown, J.Kept, SeenAll;
    SeenMember(v, dirs, Shown(news, J.Kept(DeepOptions(o), cs)), b);
    var s :| s in Shown(news, J.Kept(DeepOptions(o), cs)) && b == Seen(v, dirs, s);
    ShownMember(news, J.Kept(DeepOptions(o), cs), s);
    KeptMember(DeepOptions(o), cs, s);
    x :| x in cs && J.IsReported(DeepOptions(o), x) && s == J.Presented(DeepOptions(o), x);
  }

  // ---- listing errors included -----------------------------------------------------------

  function Recorded(base: seq<Entry>, p: Path): Option<Entry> {
    if p in AsMap(base) then Some(AsMap(base)[p]) else None
  }

  /** A directory the fingerprint does not know, not below another such, cannot be listed, and one of the modes
      reports it: under +D when it is new, under ?E or, unlisted, !T when it replaces something. */
  predicate ErrorShows(o: J.Options, news: set<Path>, dirs: set<Path>, was: Option<Entry>, live: Entry) {
    && live.typ == TYPE_DIR && live.path !in dirs && live.err != [] && !Concealed(news, live.path)
    && match was
       case None => Reports(o, OpAddedDir, live.path)
       case Some(w) => Reports(o, OpUnreadable, live.path) || (w.err == [] && Reports(o, OpTypeChanged, live.path))
  }

  /** A change is the one the two maps give, and so is its restatement. */
  lemma ChangeOf(base: seq<Entry>, live: seq<Entry>, c: Change)
    requires Ordered(base) && Ordered(live) && c in Merge(base, live)
    ensures c.now.Some? ==> c.now.value in live && c.now.value.path == c.path
    ensures c.now.Some? && Recorded(base, c.path) == None ==> c == Added(c.now.value)
    ensures c.now.Some? && Recorded(base, c.path).Some? ==>
              var w := Recorded(base, c.path).value;
              && w in base && w.path == c.path
              && c == Change(Classify(w, c.now.value), c.path, Some(w), c.now, None)
    ensures c.summary == None
  {
    hide Ordered, Merge, AsMap, Classify, OpForMissing;
    MergeMember(base, live, c);
    if c.path in AsMap(base) { InMap(base, c.path); }
    if c.path in AsMap(live) { InMap(live, c.path); }
  }

  lemma OpAtUnknown(dirs: set<Path>, was: Option<Entry>, live: Entry)
    requires live.typ == TYPE_DIR && live.path !in dirs && live.err != []
    requires was.Some? ==> was.value.typ != TYPE_DIR && was.value.path == live.path
    ensures var c := if was.None? then Added(live)
                     else Change(Classify(was.value, live), live.path, was, Some(live), None);
            && c.op == (if was.None? then OpAddedDir else OpUnreadable)
            && Restated(dirs, c).op == (if was.None? then OpAddedDir
                                        else if was.value.err == [] then OpTypeChanged else OpUnreadable)
            && Restated(dirs, c).path == live.path && Restated(dirs, c).now == Some(Strip(dirs, live))
            && Strip(dirs, live).err == []
  {
  }

  lemma ElsewhereUnchanged(dirs: set<Path>, was: Option<Entry>, live: Entry)
    requires !(live.typ == TYPE_DIR && live.path !in dirs && live.err != [])
    ensures Strip(dirs, live) == live
    ensures var c := if was.None? then Added(live)
                     else Change(Classify(was.value, live), live.path, was, Some(live), None);
            Restated(dirs, c) == c
  {
    hide Classify, OpForMissing;
  }

  lemma SameChangeAlike(o: J.Options, dirs: set<Path>, c: Change)
    requires Restated(dirs, c) == c
    ensures Alike(WithErrors, o, dirs, c)
  {
    hide Restated;
  }

  lemma UnreportedAlike(o: J.Options, dirs: set<Path>, c: Change)
    requires !Reports(o, c.op, c.path) && !Reports(o, Restated(dirs, c).op, Restated(dirs, c).path)
    ensures Alike(WithErrors, o, dirs, c)
  {
    hide Restated;
  }

  lemma NotADirectory(base: seq<Entry>, p: Path)
    requires Ordered(base) && p !in DirPaths(base) && Recorded(base, p).Some?
    ensures Recorded(base, p).value.typ != TYPE_DIR && Recorded(base, p).value.path == p
  {
    hide Ordered, AsMap;
    InMap(base, p);
  }

  /**
   * With nothing but summaries set aside, modes summary and skip report deep mode's changes less those strictly
   * below unknown directories, exactly when no unknown directory that either mode reports carries a listing error.
   */
  lemma ModesAgreeOnErrors(cfg: Config, base: seq<Entry>, root: Path, tree: Node, o: J.Options)
    requires Fingerprint(base, root) && root != [] && WellFormed(tree)
    ensures var dirs, deep := DirPaths(base), Scan(Deep(cfg), root, tree);
            var news := NewDirs(base, deep);
            var inDeep := J.Kept(DeepOptions(o), Merge(base, deep));
            var inPruned := J.Kept(o, Merge(base, Scan(Knowing(cfg, dirs), root, tree)));
            SeenAll(WithErrors, dirs, inPruned) == SeenAll(WithErrors, dirs, Shown(news, inDeep))
            <==> forall live | live in deep :: !ErrorShows(o, news, dirs, Recorded(base, live.path), live)
  {
    hide Scan, Concealed, Fingerprint, WellFormed, Merge, Visible, Shown, J.Kept, SeenAll, NewDirs, DirPaths, Alike,
         ErrorShows, Recorded, Ordered;
    var deep := Scan(Deep(cfg), root, tree);
    var dirs, news := DirPaths(base), NewDirs(base, deep);
    PruningIsSound(cfg, base, root, tree);
    FingerprintFacts(base, root);
    ScanOrdered(Deep(cfg), root, tree);
    if forall live | live in deep :: !ErrorShows(o, news, dirs, Recorded(base, live.path), live) {
      forall c | c in Merge(base, deep) ensures Concealed(news, c.path) || Alike(WithErrors, o, dirs, c) {
        NoErrorAlike(base, deep, o, news, c);
      }
      ReportsAgree(WithErrors, o, news, dirs, Merge(base, deep));
    } else {
      var live :| live in deep && ErrorShows(o, news, dirs, Recorded(base, live.path), live);
      ErrorsDiffer(base, deep, o, news, live);
    }
  }

  lemma NoErrorAlike(base: seq<Entry>, deep: seq<Entry>, o: J.Options, news: set<Path>, c: Change)
    requires Ordered(base) && Ordered(deep) && c in Merge(base, deep)
    requires forall live | live in deep :: !ErrorShows(o, news, DirPaths(base), Recorded(base, live.path), live)
    ensures Concealed(news, c.path) || Alike(WithErrors, o, DirPaths(base), c)
  {
    hide Concealed, Merge, Recorded, Ordered, Alike, Restated, Classify, OpForMissing, DirPaths, Strip;
    var dirs := DirPaths(base);
    ChangeOf(base, deep, c);
    if c.now.None? {
      assert Restated(dirs, c) == c by { RemovedUnchanged(dirs, c); }
      SameChangeAlike(o, dirs, c);
    } else {
      var live, was := c.now.value, Recorded(base, c.path);
      if live.typ == TYPE_DIR && live.path !in dirs && live.err != [] && !Concealed(news, c.path) {
        if was.Some? { NotADirectory(base, c.path); }
        OpAtUnknown(dirs, was, live);
        assert !ErrorShows(o, news, dirs, was, live);
        UnreportedAlike(o, dirs, c);
      } else if !(live.typ == TYPE_DIR && live.path !in dirs && live.err != []) {
        ElsewhereUnchanged(dirs, was, live);
        SameChangeAlike(o, dirs, c);
      }
    }
  }

  lemma RemovedUnchanged(dirs: set<Path>, c: Change)
    requires c.now.None?
    ensures Restated(dirs, c) == c
  {
  }

  lemma ChangeAt(base: seq<Entry>, deep: seq<Entry>, live: Entry)
    requires Ordered(base) && Ordered(deep) && live in deep && live.typ == TYPE_DIR && live.err != []
    ensures var was := Recorded(base, live.path);
            var c := if was.None? then Added(live)
                     else Change(Classify(was.value, live), live.path, was, Some(live), None);
            c in Merge(base, deep)
  {
    hide Ordered, Merge, AsMap, OpForMissing;
    MapEntry(deep, live);
    var was := Recorded(base, live.path);
    MergeMember(base, deep, if was.None? then Added(live)
        else Change(Classify(was.value, live), live.path, was, Some(live), None));
  }

  lemma SeenError(dirs: set<Path>, o: J.Options, c: Change)
    requires c.now.Some?
    ensures var d := Seen(WithErrors, dirs, J.Presented(o, c)); d.now == c.now && d.path == c.path
  {
  }

  lemma ErrorsDiffer(base: seq<Entry>, deep: seq<Entry>, o: J.Options, news: set<Path>, live: Entry)
    requires Ordered(base) && Ordered(deep) && live in deep
    requires ErrorShows(o, news, DirPaths(base), Recorded(base, live.path), live)
    ensures var dirs, cs := DirPaths(base), Merge(base, deep);
            SeenAll(WithErrors, dirs, J.Kept(o, Visible(news, dirs, cs)))
            != SeenAll(WithErrors, dirs, Shown(news, J.Kept(DeepOptions(o), cs)))
  {
    hide Concealed, Merge, Visible, Shown, J.Kept, SeenAll, DirPaths, Restated, Classify, OpForMissing, Strip, Ordered,
        Seen, J.Presented, Recorded;
    var dirs, cs, was := DirPaths(base), Merge(base, deep), Recorded(base, live.path);
    var c := if was.None? then Added(live) else Change(Classify(was.value, live), live.path, was, Some(live), None);
    ChangeAt(base, deep, live);
    if was.Some? { NotADirectory(base, live.path); }
    OpAtUnknown(dirs, was, live);
    var p, d := SeenAll(WithErrors, dirs, J.Kept(o, Visible(news, dirs, cs))),
        SeenAll(WithErrors, dirs, Shown(news, J.Kept(DeepOptions(o), cs)));
    if Reports(o, c.op, c.path) {
      InDeepReport(WithErrors, o, news, dirs, cs, c);
      var b := Seen(WithErrors, dirs, c);
      assert b.now == c.now && b.path == c.path by { SeenPlain(dirs, c); }
      if b in p {
        var x := FromPrunedReport(WithErrors, o, news, dirs, cs, b);
        RestatedPath(base, deep, x);
        SamePath(base, deep, c, x);
        SeenError(dirs, o, Restated(dirs, c));
      }
    } else {
      InPrunedReport(WithErrors, o, news, dirs, cs, c);
      var b := Seen(WithErrors, dirs, J.Presented(o, Restated(dirs, c)));
      SeenError(dirs, o, Restated(dirs, c));
      if b in d {
        var x := FromDeepReport(WithErrors, o, news, dirs, cs, b);
        SamePath(base, deep, c, x);
        SeenError(dirs, DeepOptions(o), c);
      }
    }
  }

  lemma SeenPlain(dirs: set<Path>, c: Change)
    ensures Seen(WithErrors, dirs, c).now == c.now && Seen(WithErrors, dirs, c).path == c.path
  {
  }

  lemma RestatedPath(base: seq<Entry>, deep: seq<Entry>, x: Change)
    requires Ordered(base) && Ordered(deep) && x in Merge(base, deep)
    ensures Restated(DirPaths(base), x).path == x.path
  {
    hide Ordered, Merge, Classify, OpForMissing, Recorded, DirPaths;
    ChangeOf(base, deep, x);
  }

  // ---- it does happen --------------------------------------------------------------------

  const PLAIN: Config := Config((p: Path) => false, MountAll, (p: Path) => FSUnknown, 10, (e: Entry) => true, true, 0,
                                (p: Path) => OpenFails([]))

  function Only(kid: Node): Node {
    Node(Info(TYPE_DIR, 0, 0, 0, 0, 0, 0, 0, 0), LinkFails([]), None, Dirent([120], Present(kid), End))
  }

  /** /x was a file and is now a directory nobody may list. */
  function Before(): Node { Node(Info(TYPE_FILE, 0, 0, 0, 0, 0, 0, 0, 0), LinkFails([]), None, End) }
  function After(): Node { Node(Info(TYPE_DIR, 0, 0, 0, 0, 0, 0, 0, 0), LinkFails([]), Some([1]), End) }

  lemma ScanOfOnly(cfg: Config, kid: Node)
    requires !cfg.exclude(Join(ROOT, [120])) && cfg.mounts == MountAll && cfg.maxDepth == 10 && cfg.noHash
    ensures Draft(cfg, Join(ROOT, [120]), kid, 1, 0) in Scan(cfg, ROOT, Only(kid))
    ensures WellFormed(kid) ==> WellFormed(Only(kid))
  {
    hide Draft, Join, MayDescend;
    var e, path, kids := Draft(cfg, Join(ROOT, [120]), kid, 1, 0), Join(ROOT, [120]), Only(kid).kids;
    assert Listed(End);
    assert WellFormed(kid) ==> Listed(kids);
    assert VisitOne(cfg, path, kids.stat, 1, 0)[0] == e by { assert Visit(cfg, path, kid, 1, 0)[0] == e; }
    assert VisitKids(cfg, ROOT, kids, 1, 0)[0] == e by { hide Visit, VisitOne; }
    RootIsEntered(cfg, ROOT, Only(kid));
    hide Enters, VisitKids;
    assert Visit(cfg, ROOT, Only(kid), 0, 0)[1] == e;
    MemberFinished(cfg, Visit(cfg, ROOT, Only(kid), 0, 0), e);
  }

  lemma RootIsEntered(cfg: Config, root: Path, tree: Node)
    requires tree.info.typ == TYPE_DIR
    ensures Enters(cfg, root, tree, 0, 0)
  {
  }

  /** With no filter at all, this pair of trees makes the two modes report differently. */
  lemma ModesCanDiffer()
    ensures var base := Scan(PLAIN, ROOT, Only(Before()));
            var dirs, deep := DirPaths(base), Scan(Deep(PLAIN), ROOT, Only(After()));
            var all := J.Options(None, (op: Op, p: Path) => false, None);
            && Fingerprint(base, ROOT) && WellFormed(Only(After()))
            && SeenAll(WithoutErrors, dirs, J.Kept(all, Merge(base, Scan(Knowing(PLAIN, dirs), ROOT, Only(After())))))
               != SeenAll(WithoutErrors, dirs, Shown(NewDirs(base, deep), J.Kept(DeepOptions(all), Merge(base, deep))))
  {
    hide Scan, RingVisit, WellFormed, Join, SeenAll, J.Kept, Shown, Merge;
    assert WellFormed(Before()) && WellFormed(After()) by { KidsWellFormed(); }
    assert !PLAIN.exclude(Join(ROOT, [120]));
    ScanOfOnly(PLAIN, Before());
    ScanOfOnly(Deep(PLAIN), After());
    var base, deep := Scan(PLAIN, ROOT, Only(Before())), Scan(Deep(PLAIN), ROOT, Only(After()));
    var all := J.Options(None, (op: Op, p: Path) => false, None);
    var was, live := Draft(PLAIN, Join(ROOT, [120]), Before(), 1, 0),
        Draft(Deep(PLAIN), Join(ROOT, [120]), After(), 1, 0);
    assert ReplacedUnlistable(all, was, live);
    FreshScan(PLAIN, |base| + 1, ROOT, Only(Before()));
    assert Records(PLAIN, |base| + 1, ROOT, Only(Before()), base);
    ModesAgree(PLAIN, base, ROOT, Only(After()), all);
  }

  lemma KidsWellFormed()
    ensures WellFormed(Before()) && WellFormed(After())
  {
  }
}
