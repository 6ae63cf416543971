/** The difference of two ordered entry lists, as a merge and as a statement about two maps. */
module MapDiff {
  import opened Bytes
  import opened Canon
  import opened ScanEntry
  import opened Classification

  datatype DirSummary = DirSummary(files: nat, dirs: nat, bytes: int)

  datatype Change = Change(op: Op, path: Path, was: Option<Entry>, now: Option<Entry>, summary: Option<DirSummary>)

  function Removed(e: Entry): Change {
    Change(OpForMissing(e, false), e.path, Some(e), None, None)
  }

  function Added(e: Entry): Change {
    Change(OpForMissing(e, true), e.path, None, Some(e), None)
  }

  /** The change of a path on both sides, or none. */
  function Changed(was: Entry, live: Entry): seq<Change> {
    if Classify(was, live) == OpNone then []
    else [Change(Classify(was, live), live.path, Some(was), Some(live), None)]
  }

  /** The merge join. */
  function Merge(base: seq<Entry>, live: seq<Entry>): seq<Change>
    decreases |base| + |live|
  {
    if base == [] && live == [] then []
    else if live == [] || (base != [] && Less(base[0].path, live[0].path)) then
      [Removed(base[0])] + Merge(base[1..], live)
    else if base != [] && base[0].path == live[0].path then
      Changed(base[0], live[0]) + Merge(base[1..], live[1..])
    else
      [Added(live[0])] + Merge(base, live[1..])
  }

  // ---- two maps --------------------------------------------------------------------------

  function AsMap(es: seq<Entry>): map<Path, Entry> {
    if es == [] then map[] else AsMap(es[1..])[es[0].path := es[0]]
  }

  /** c is what the two maps say about its path. */
  ghost predicate IsDifference(base: map<Path, Entry>, live: map<Path, Entry>, c: Change) {
    if c.path in base && c.path in live then [c] == Changed(base[c.path], live[c.path])
    else if c.path in base then c == Removed(base[c.path])
    else c.path in live && c == Added(live[c.path])
  }

  function ChangePaths(cs: seq<Change>): (ps: seq<Path>)
    ensures |ps| == |cs|
    ensures forall i | 0 <= i < |cs| :: ps[i] == cs[i].path
  {
    seq(|cs|, i requires 0 <= i < |cs| => cs[i].path)
  }

  /** Every path of es is above p. */
  ghost predicate AllAbove(es: seq<Entry>, p: Path) {
    forall e | e in es :: Less(p, e.path)
  }

  lemma OrderedTail(es: seq<Entry>)
    requires es != [] && Ordered(es)
    ensures Ordered(es[1..]) && AllAbove(es[1..], es[0].path)
  {
    var ps, qs := Paths(es), Paths(es[1..]);
    assert forall i | 0 <= i < |qs| :: qs[i] == ps[i + 1];
    forall e | e in es[1..] ensures Less(es[0].path, e.path) {
      var i :| 0 <= i < |qs| && es[1..][i] == e;
      assert Less(ps[0], ps[i + 1]);
    }
  }

  lemma {:induction false} MapKeys(es: seq<Entry>, p: Path)
    ensures p in AsMap(es) <==> exists e :: e in es && e.path == p
  {
    if es != [] {
      MapKeys(es[1..], p);
      assert forall e :: e in es <==> e == es[0] || e in es[1..];
    }
  }

  lemma {:induction false} MapEntry(es: seq<Entry>, e: Entry)
    requires Ordered(es) && e in es
    ensures e.path in AsMap(es) && AsMap(es)[e.path] == e
  {
    OrderedTail(es);
    if e != es[0] {
      assert e in es[1..];
      MapEntry(es[1..], e);
      StrictTotalOrder(es[0].path, e.path, e.path);
    }
  }

  lemma AboveNotIn(es: seq<Entry>, p: Path, q: Path)
    requires AllAbove(es, p) && (q == p || Less(q, p))
    ensures q !in AsMap(es)
  {
    MapKeys(es, q);
    if e :| e in es && e.path == q {
      StrictTotalOrder(p, q, p);
    }
  }

  lemma AboveTrans(es: seq<Entry>, p: Path, q: Path)
    requires AllAbove(es, q) && Less(p, q)
    ensures AllAbove(es, p)
  {
    forall e | e in es ensures Less(p, e.path) { LessTransitive(p, q, e.path); }
  }

  /** Paths of the merge come from the two lists and increase strictly. */
  lemma {:induction false} MergeAbove(base: seq<Entry>, live: seq<Entry>, p: Path)
    requires AllAbove(base, p) && AllAbove(live, p)
    ensures forall c | c in Merge(base, live) :: Less(p, c.path)
    decreases |base| + |live|
  {
    hide Less, Classify;
    if base == [] && live == [] {
    } else if live == [] || (base != [] && Less(base[0].path, live[0].path)) {
      MergeAbove(base[1..], live, p);
    } else if base != [] && base[0].path == live[0].path {
      MergeAbove(base[1..], live[1..], p);
    } else {
      MergeAbove(base, live[1..], p);
    }
  }

  /** What one step of the merge takes off the two lists is below everything left. */
  lemma StepAbove(base: seq<Entry>, live: seq<Entry>)
    requires Ordered(base) && Ordered(live)
    ensures base != [] && (live == [] || Less(base[0].path, live[0].path)) ==>
              Ordered(base[1..]) && AllAbove(base[1..], base[0].path) && AllAbove(live, base[0].path)
    ensures base != [] && live != [] && base[0].path == live[0].path ==>
              && Ordered(base[1..]) && AllAbove(base[1..], base[0].path)
              && Ordered(live[1..]) && AllAbove(live[1..], live[0].path)
    ensures live != [] && (base == [] || Less(live[0].path, base[0].path)) ==>
              Ordered(live[1..]) && AllAbove(live[1..], live[0].path) && AllAbove(base, live[0].path)
  {
    hide Ordered, Less;
    if base != [] { OrderedTail(base); }
    if live != [] { OrderedTail(live); }
    if base != [] && live != [] {
      if Less(base[0].path, live[0].path) { AboveTrans(live[1..], base[0].path, live[0].path); }
      if Less(live[0].path, base[0].path) { AboveTrans(base[1..], live[0].path, base[0].path); }
    }
  }

  lemma StepCases(base: seq<Entry>, live: seq<Entry>)
    requires base != [] && live != []
    ensures Less(base[0].path, live[0].path) || base[0].path == live[0].path || Less(live[0].path, base[0].path)
    ensures !(Less(base[0].path, live[0].path) && base[0].path == live[0].path)
    ensures !(Less(live[0].path, base[0].path) && base[0].path == live[0].path)
    ensures !(Less(base[0].path, live[0].path) && Less(live[0].path, base[0].path))
  {
    StrictTotalOrder(base[0].path, live[0].path, live[0].path);
  }

  /** The merge lists exactly the differences of the two maps. */
  lemma {:induction false} MergeMember(base: seq<Entry>, live: seq<Entry>, c: Change)
    requires Ordered(base) && Ordered(live)
    ensures c in Merge(base, live) <==> IsDifference(AsMap(base), AsMap(live), c)
    decreases |base| + |live|
  {
    hide Less, Ordered, Classify, OpForMissing, AllAbove;
    StepAbove(base, live);
    if base != [] && live != [] { StepCases(base, live); }
    if base == [] && live == [] {
    } else if live == [] || (base != [] && Less(base[0].path, live[0].path)) {
      MergeMember(base[1..], live, c);
      AboveNotIn(live, base[0].path, base[0].path);
      AboveNotIn(base[1..], base[0].path, base[0].path);
    } else if base != [] && base[0].path == live[0].path {
      MergeMember(base[1..], live[1..], c);
      AboveNotIn(base[1..], base[0].path, base[0].path);
      AboveNotIn(live[1..], base[0].path, base[0].path);
    } else {
      MergeMember(base, live[1..], c);
      AboveNotIn(base, live[0].path, live[0].path);
      AboveNotIn(live[1..], live[0].path, live[0].path);
    }
  }

  /** ... in strictly increasing path order, so at most one per path. */
  lemma {:induction false} MergeOrdered(base: seq<Entry>, live: seq<Entry>)
    requires Ordered(base) && Ordered(live)
    ensures Increasing(ChangePaths(Merge(base, live)))
    decreases |base| + |live|
  {
    hide Less, Ordered, Classify, OpForMissing;
    StepAbove(base, live);
    if base != [] && live != [] { StepCases(base, live); }
    if base == [] && live == [] {
    } else if live == [] || (base != [] && Less(base[0].path, live[0].path)) {
      MergeOrdered(base[1..], live);
      MergeAbove(base[1..], live, base[0].path);
      ConsIncreasing(Removed(base[0]), Merge(base[1..], live));
    } else if base != [] && base[0].path == live[0].path {
      MergeOrdered(base[1..], live[1..]);
      MergeAbove(base[1..], live[1..], base[0].path);
      if Changed(base[0], live[0]) != [] {
        ConsIncreasing(Changed(base[0], live[0])[0], Merge(base[1..], live[1..]));
      } else {
        assert [] + Merge(base[1..], live[1..]) == Merge(base[1..], live[1..]);
      }
    } else {
      MergeOrdered(base, live[1..]);
      MergeAbove(base, live[1..], live[0].path);
      ConsIncreasing(Added(live[0]), Merge(base, live[1..]));
    }
  }

  lemma ConsIncreasing(c: Change, cs: seq<Change>)
    requires Increasing(ChangePaths(cs)) && forall d | d in cs :: Less(c.path, d.path)
    ensures Increasing(ChangePaths([c] + cs))
  {
    var ps, qs := ChangePaths([c] + cs), ChangePaths(cs);
    forall i, j | 0 <= i < j < |ps| ensures Less(ps[i], ps[j]) {
      assert ps[j] == qs[j - 1] && cs[j - 1] in cs;
      if i > 0 { assert ps[i] == qs[i - 1]; }
    }
  }

  // ---- merging in two stages -------------------------------------------------------------

  /** es lies wholly below fs. */
  ghost predicate AllBelow(es: seq<Entry>, fs: seq<Entry>) {
    forall e, f | e in es && f in fs :: Less(e.path, f.path)
  }

  /** The merge can stop between any two paths and go on. */
  lemma {:induction false} MergeSplit(b1: seq<Entry>, l1: seq<Entry>, b2: seq<Entry>, l2: seq<Entry>)
    requires AllBelow(b1, l2) && AllBelow(l1, b2)
    ensures Merge(b1 + b2, l1 + l2) == Merge(b1, l1) + Merge(b2, l2)
    decreases |b1| + |l1|
  {
    hide Less, Classify, OpForMissing;
    if b1 == [] && l1 == [] {
      assert b1 + b2 == b2 && l1 + l2 == l2;
    } else if l1 == [] || (b1 != [] && Less(b1[0].path, l1[0].path)) {
      SplitStep(b1, l1, b2, l2);
      assert (b1 + b2)[1..] == b1[1..] + b2;
      MergeSplit(b1[1..], l1, b2, l2);
    } else if b1 != [] && b1[0].path == l1[0].path {
      SplitStep(b1, l1, b2, l2);
      assert (b1 + b2)[1..] == b1[1..] + b2 && (l1 + l2)[1..] == l1[1..] + l2;
      MergeSplit(b1[1..], l1[1..], b2, l2);
    } else {
      SplitStep(b1, l1, b2, l2);
      assert (l1 + l2)[1..] == l1[1..] + l2;
      MergeSplit(b1, l1[1..], b2, l2);
    }
  }

  /** The first step of a merge does not depend on what comes after. */
  lemma SplitStep(b1: seq<Entry>, l1: seq<Entry>, b2: seq<Entry>, l2: seq<Entry>)
    requires AllBelow(b1, l2) && AllBelow(l1, b2) && (b1 != [] || l1 != [])
    ensures l1 == [] || (b1 != [] && Less(b1[0].path, l1[0].path)) ==>
              l1 + l2 == [] || Less((b1 + b2)[0].path, (l1 + l2)[0].path)
    ensures l1 != [] && (b1 == [] || !Less(b1[0].path, l1[0].path)) ==>
              b1 + b2 == [] || !Less((b1 + b2)[0].path, (l1 + l2)[0].path)
    ensures l1 != [] && b1 == [] && b2 != [] ==> b2[0].path != l1[0].path
  {
    if l1 == [] && l2 != [] { assert b1[0] in b1 && l2[0] in l2; }
    if b1 == [] && b2 != [] {
      assert l1[0] in l1 && b2[0] in b2;
      StrictTotalOrder(l1[0].path, b2[0].path, b2[0].path);
    }
  }

  // ---- counting --------------------------------------------------------------------------

  /** Paths on both sides, counted along the merge. */
  function Common(base: seq<Entry>, live: seq<Entry>): nat
    decreases |base| + |live|
  {
    if base == [] || live == [] then 0
    else if Less(base[0].path, live[0].path) then Common(base[1..], live)
    else if base[0].path == live[0].path then 1 + Common(base[1..], live[1..])
    else Common(base, live[1..])
  }

  lemma {:induction false} CommonSplit(b1: seq<Entry>, l1: seq<Entry>, b2: seq<Entry>, l2: seq<Entry>)
    requires AllBelow(b1, l2) && AllBelow(l1, b2)
    ensures Common(b1 + b2, l1 + l2) == Common(b1, l1) + Common(b2, l2)
    decreases |b1| + |l1|
  {
    hide Less;
    if b1 == [] && l1 == [] {
      assert b1 + b2 == b2 && l1 + l2 == l2;
    } else if l1 == [] || (b1 != [] && Less(b1[0].path, l1[0].path)) {
      SplitStep(b1, l1, b2, l2);
      assert (b1 + b2)[1..] == b1[1..] + b2;
      CommonSplit(b1[1..], l1, b2, l2);
    } else if b1 != [] && b1[0].path == l1[0].path {
      SplitStep(b1, l1, b2, l2);
      assert (b1 + b2)[1..] == b1[1..] + b2 && (l1 + l2)[1..] == l1[1..] + l2;
      CommonSplit(b1[1..], l1[1..], b2, l2);
    } else {
      SplitStep(b1, l1, b2, l2);
      assert (l1 + l2)[1..] == l1[1..] + l2;
      CommonSplit(b1, l1[1..], b2, l2);
    }
  }

  function CountSide(cs: seq<Change>, added: bool): nat {
    if cs == [] then 0
    else (if (if added then cs[0].was == None else cs[0].now == None) then 1 else 0) + CountSide(cs[1..], added)
  }

  lemma CountSideCons(c: Change, cs: seq<Change>, added: bool)
    ensures CountSide([c] + cs, added) == CountSide([c], added) + CountSide(cs, added)
  {
    assert ([c] + cs)[1..] == cs && [c][1..] == [];
  }

  /** Every path of the base is compared or reported removed, every live path compared or reported
      added. */
  lemma {:induction false} MergeAccounts(base: seq<Entry>, live: seq<Entry>)
    ensures |base| == Common(base, live) + CountSide(Merge(base, live), false)
    ensures |live| == Common(base, live) + CountSide(Merge(base, live), true)
    decreases |base| + |live|
  {
    hide Less, Classify, OpForMissing;
    if base == [] && live == [] {
    } else if live == [] || (base != [] && Less(base[0].path, live[0].path)) {
      MergeAccounts(base[1..], live);
      CountSideCons(Removed(base[0]), Merge(base[1..], live), false);
      CountSideCons(Removed(base[0]), Merge(base[1..], live), true);
    } else if base != [] && base[0].path == live[0].path {
      MergeAccounts(base[1..], live[1..]);
      if Changed(base[0], live[0]) != [] {
        CountSideCons(Changed(base[0], live[0])[0], Merge(base[1..], live[1..]), false);
        CountSideCons(Changed(base[0], live[0])[0], Merge(base[1..], live[1..]), true);
      } else {
        assert [] + Merge(base[1..], live[1..]) == Merge(base[1..], live[1..]);
      }
    } else {
      MergeAccounts(base, live[1..]);
      CountSideCons(Added(live[0]), Merge(base, live[1..]), false);
      CountSideCons(Added(live[0]), Merge(base, live[1..]), true);
    }
  }

  // ---- what the merge reports of one path ------------------------------------------------

  /** A path on both sides: at most one change, of both entries, and of no category but the pair's; none exactly when
      nothing that is compared has changed, and a changed content exactly when both files were read and differ. */
  lemma PairReported(base: seq<Entry>, live: seq<Entry>, was: Entry, now: Entry)
    requires Ordered(base) && Ordered(live) && was in base && now in live && was.path == now.path
    ensures forall c | c in Merge(base, live) && c.path == was.path ::
              c == Change(c.op, was.path, Some(was), Some(now), None)
    ensures (exists c :: c in Merge(base, live) && c.path == was.path)
       <==> !(&& was.err == [] && now.err == [] && was.typ == now.typ
              && (was.typ == TYPE_SYMLINK ==> was.link == now.link)
              && (was.typ == TYPE_FILE && was.hashed && now.hashed ==> was.hash == now.hash)
              && (was.typ == TYPE_FILE && !(was.hashed && now.hashed) ==>
                    was.size == now.size && was.mtime == now.mtime)
              && was.mode == now.mode && was.uid == now.uid && was.gid == now.gid)
    ensures Change(OpChangedFile, was.path, Some(was), Some(now), None) in Merge(base, live)
       <==> (&& was.err == [] && now.err == [] && was.typ == TYPE_FILE && now.typ == TYPE_FILE
             && was.hashed && now.hashed && was.hash != now.hash)
    ensures Change(OpUnreadable, was.path, Some(was), Some(now), None) in Merge(base, live)
       <==> was.err != [] || now.err != []
  {
    hide Merge, Ordered, AsMap;
    MapEntry(base, was);
    MapEntry(live, now);
    ClassifyMeans(was, now);
    var p, op := was.path, Classify(was, now);
    hide Classify;
    forall c: Change | c.path == p
      ensures c in Merge(base, live) <==> op != OpNone && c == Change(op, p, Some(was), Some(now), None)
    {
      MergeMember(base, live, c);
    }
    assert op != OpNone ==> Change(op, p, Some(was), Some(now), None) in Merge(base, live);
  }

  /** A path on one side only: exactly one change, an addition or a removal, of a directory or not. */
  lemma OneSidedReported(base: seq<Entry>, live: seq<Entry>, e: Entry, c: Change)
    requires Ordered(base) && Ordered(live) && c.path == e.path
    ensures e in live && (forall b | b in base :: b.path != e.path) ==>
              (c in Merge(base, live) <==>
                 c == Change(if e.typ == TYPE_DIR then OpAddedDir else OpAdded, e.path, None, Some(e), None))
    ensures e in base && (forall f | f in live :: f.path != e.path) ==>
              (c in Merge(base, live) <==>
                 c == Change(if e.typ == TYPE_DIR then OpRemovedDir else OpRemoved, e.path, Some(e), None, None))
  {
    hide Merge, Ordered, AsMap, Classify;
    MapKeys(base, e.path);
    MapKeys(live, e.path);
    if e in live { MapEntry(live, e); }
    if e in base { MapEntry(base, e); }
    MergeMember(base, live, c);
  }
}
