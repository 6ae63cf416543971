/** The streaming merge join (internal/diff/merge.go). */
module Join {
  import opened Bytes
  import opened Canon
  import opened ScanEntry
  import opened Classification
  import opened MapDiff

  /** An Entry both streams fill again and again. */
  class Box {
    var e: Entry

    constructor ()
    {
      e := BLANK;
    }
  }

  datatype Pulled = Filled | Exhausted | Failed

  /** The fingerprint side: ordered entries delivered through one reused Box, then EOF or a fault. */
  class Source {
    const entries: seq<Entry>
    const breaks: bool
    const cell: Box
    var pos: nat

    constructor (entries: seq<Entry>, breaks: bool)
      requires Ordered(entries)
      ensures Valid() && this.entries == entries && this.breaks == breaks && pos == 0 && fresh(cell)
    {
      this.entries, this.breaks, pos := entries, breaks, 0;
      cell := new Box();
    }

    ghost predicate Valid()
      reads this
    {
      pos <= |entries| && Ordered(entries)
    }

    method Next() returns (r: Pulled)
      requires Valid()
      modifies this, cell
      ensures Valid()
      ensures old(pos) < |entries| ==> r == Filled && pos == old(pos) + 1 && cell.e == entries[old(pos)]
      ensures old(pos) == |entries| ==> r == (if breaks then Failed else Exhausted) && pos == old(pos)
    {
      if pos < |entries| {
        cell.e := entries[pos];
        pos := pos + 1;
        return Filled;
      }
      return if breaks then Failed else Exhausted;
    }
  }

  datatype Options = Options(
    show: Option<set<Op>>,
    ignore: (Op, Path) -> bool,
    summarize: Option<Path -> Option<DirSummary>>)

  predicate IsHidden(o: Options, op: Op) {
    o.show.Some? && op !in o.show.value
  }

  /** A change as it is handed over. */
  function Presented(o: Options, c: Change): Change {
    if c.op == OpAddedDir && o.summarize.Some? then c.(summary := o.summarize.value(c.path)) else c
  }

  predicate IsReported(o: Options, c: Change) {
    !o.ignore(c.op, c.path) && !IsHidden(o, c.op)
  }

  /** The changes that reach the callback. */
  function Kept(o: Options, cs: seq<Change>): seq<Change> {
    if cs == [] then []
    else Kept(o, cs[..|cs| - 1]) + (if IsReported(o, cs[|cs| - 1]) then [Presented(o, cs[|cs| - 1])] else [])
  }

  datatype Tally = Tally(counts: map<Op, nat>, ignored: nat, hidden: nat)

  function Count(t: map<Op, nat>, op: Op): nat {
    if op in t then t[op] else 0
  }

  function TallyOne(o: Options, t: Tally, c: Change): Tally {
    if o.ignore(c.op, c.path) then t.(ignored := t.ignored + 1)
    else if IsHidden(o, c.op) then t.(hidden := t.hidden + 1)
    else t.(counts := t.counts[c.op := Count(t.counts, c.op) + 1])
  }

  function TallyAll(o: Options, cs: seq<Change>): Tally {
    if cs == [] then Tally(map[], 0, 0) else TallyOne(o, TallyAll(o, cs[..|cs| - 1]), cs[|cs| - 1])
  }

  /** Stats.Total */
  function Total(t: map<Op, nat>): nat {
    Count(t, OpAddedDir) + Count(t, OpRemovedDir) + Count(t, OpChangedDir)
    + Count(t, OpAdded) + Count(t, OpRemoved) + Count(t, OpChangedFile) + Count(t, OpChangedMeta)
    + Count(t, OpTypeChanged) + Count(t, OpRetargeted) + Count(t, OpUnreadable)
  }

  /** The sum of the counts is the number of changes handed over, and every difference is handed
      over, ignored or hidden. */
  lemma {:induction false} TallyTotals(o: Options, cs: seq<Change>)
    requires forall c | c in cs :: c.op != OpNone
    ensures Total(TallyAll(o, cs).counts) == |Kept(o, cs)|
    ensures |Kept(o, cs)| + TallyAll(o, cs).ignored + TallyAll(o, cs).hidden == |cs|
  {
    hide Total;
    if cs == [] {
      NothingCounted();
    } else {
      TallyTotals(o, cs[..|cs| - 1]);
      assert cs[|cs| - 1] in cs;
      TotalBump(TallyAll(o, cs[..|cs| - 1]).counts, cs[|cs| - 1].op);
    }
  }

  lemma NothingCounted()
    ensures Total(map[]) == 0
  {
  }

  lemma TotalBump(t: map<Op, nat>, op: Op)
    requires op != OpNone
    ensures Total(t[op := Count(t, op) + 1]) == Total(t) + 1
  {
    hide Count;
    CountBump(t, op, OpAddedDir);
    CountBump(t, op, OpRemovedDir);
    CountBump(t, op, OpChangedDir);
    CountBump(t, op, OpAdded);
    CountBump(t, op, OpRemoved);
    CountBump(t, op, OpChangedFile);
    CountBump(t, op, OpChangedMeta);
    CountBump(t, op, OpTypeChanged);
    CountBump(t, op, OpRetargeted);
    CountBump(t, op, OpUnreadable);
  }

  lemma CountBump(t: map<Op, nat>, op: Op, x: Op)
    ensures Count(t[op := Count(t, op) + 1], x) == Count(t, x) + (if x == op then 1 else 0)
  {
  }

  lemma {:induction false} MergeNeverNone(base: seq<Entry>, live: seq<Entry>)
    ensures forall c | c in Merge(base, live) :: c.op != OpNone
    decreases |base| + |live|
  {
    hide Less, Classify;
    if base == [] && live == [] {
    } else if live == [] || (base != [] && Less(base[0].path, live[0].path)) {
      MergeNeverNone(base[1..], live);
    } else if base != [] && base[0].path == live[0].path {
      MergeNeverNone(base[1..], live[1..]);
    } else {
      MergeNeverNone(base, live[1..]);
    }
  }

  // ---- what the two filters do -----------------------------------------------------------

  /** What is handed over: the changes the ignore rules do not match and whose category is asked for, when categories
      are, with the summary of an added directory when there is one to be had. */
  lemma {:induction false} KeptMeans(o: Options, cs: seq<Change>, d: Change)
    ensures d in Kept(o, cs)
       <==> exists c :: && c in cs && !o.ignore(c.op, c.path) && (o.show.Some? ==> c.op in o.show.value)
                        && d == (if c.op == OpAddedDir && o.summarize.Some?
                                 then c.(summary := o.summarize.value(c.path)) else c)
  {
    if cs != [] {
      KeptMeans(o, cs[..|cs| - 1], d);
      assert forall c :: c in cs <==> c in cs[..|cs| - 1] || c == cs[|cs| - 1];
    }
  }

  /** What is counted: the changes the rules match, those not asked for among the others, and the rest by category. */
  lemma {:induction false} TallyMeans(o: Options, cs: seq<Change>, op: Op)
    ensures var t := TallyAll(o, cs);
            && t.ignored == HowMany(cs, (c: Change) => o.ignore(c.op, c.path))
            && t.hidden == HowMany(cs, (c: Change) =>
                                     !o.ignore(c.op, c.path) && o.show.Some? && c.op !in o.show.value)
            && Count(t.counts, op)
               == HowMany(cs, (c: Change) =>
                            c.op == op && !o.ignore(c.op, c.path) && (o.show.Some? ==> c.op in o.show.value))
  {
    if cs != [] { TallyMeans(o, cs[..|cs| - 1], op); }
  }

  /** In path order, one change per path. */
  lemma {:induction false} KeptOrdered(o: Options, cs: seq<Change>)
    requires Increasing(ChangePaths(cs))
    ensures Increasing(ChangePaths(Kept(o, cs)))
    ensures forall d | d in Kept(o, cs) :: d.path in ChangePaths(cs)
  {
    if cs != [] {
      var r, c := cs[..|cs| - 1], cs[|cs| - 1];
      assert cs == r + [c];
      assert ChangePaths(cs) == ChangePaths(r) + [c.path];
      IncreasingParts(ChangePaths(r), [c.path]);
      KeptOrdered(o, r);
      KeptSnocOrdered(Kept(o, r), Presented(o, c), ChangePaths(r));
    }
  }

  lemma KeptSnocOrdered(kept: seq<Change>, d: Change, ps: seq<Path>)
    requires Increasing(ps + [d.path]) && Increasing(ChangePaths(kept)) && forall k | k in kept :: k.path in ps
    ensures Increasing(ChangePaths(kept + [d]))
  {
    hide Less;
    var qs := ps + [d.path];
    forall x, y | x in ChangePaths(kept) && y in [d.path] ensures Less(x, y) {
      var i :| 0 <= i < |kept| && kept[i].path == x;
      assert kept[i] in kept;
      var j :| 0 <= j < |ps| && ps[j] == x;
      assert Less(qs[j], qs[|ps|]);
    }
    IncreasingConcat(ChangePaths(kept), [d.path]);
    assert ChangePaths(kept + [d]) == ChangePaths(kept) + [d.path];
  }

  // ---- the state between calls -----------------------------------------------------------

  /** all is what the base holds; gone has been dealt with, rest has not. */
  ghost predicate Caught(all: seq<Entry>, gone: seq<Entry>, rest: seq<Entry>, fed: seq<Entry>,
                         diffs: seq<Change>, compared: nat)
  {
    && all == gone + rest && Ordered(all) && Ordered(fed) && AllBelow(fed, rest)
    && diffs == Merge(gone, fed) && compared == Common(gone, fed)
  }

  /** Everything dealt with is below p. */
  ghost predicate Passed(gone: seq<Entry>, fed: seq<Entry>, p: Path) {
    forall e | e in gone || e in fed :: Less(e.path, p)
  }

  /** ... or at p. */
  ghost predicate Reached(gone: seq<Entry>, fed: seq<Entry>, p: Path) {
    forall e | e in gone || e in fed :: e.path == p || Less(e.path, p)
  }

  ghost predicate Reported(o: Options, diffs: seq<Change>, emitted: seq<Change>, tally: Tally) {
    emitted == Kept(o, diffs) && tally == TallyAll(o, diffs)
  }

  lemma ReachedThenPassed(gone: seq<Entry>, fed: seq<Entry>, p: Path, q: Path)
    requires Reached(gone, fed, p) && Less(p, q)
    ensures Passed(gone, fed, q)
  {
    hide Less;
    forall e | e in gone || e in fed ensures Less(e.path, q) {
      if e.path != p { LessTransitive(e.path, p, q); }
    }
  }

  lemma OneRemoved(e: Entry)
    ensures Merge([e], []) == [Removed(e)] && Common([e], []) == 0
  {
    assert [e][1..] == [];
  }

  lemma OneAdded(e: Entry)
    ensures Merge([], [e]) == [Added(e)] && Common([], [e]) == 0
  {
    assert [e][1..] == [];
  }

  lemma OneCompared(was: Entry, live: Entry)
    requires was.path == live.path
    ensures Merge([was], [live]) == Changed(was, live) && Common([was], [live]) == 1
  {
    StrictTotalOrder(was.path, live.path, live.path);
    assert [was][1..] == [] && [live][1..] == [];
    assert Changed(was, live) + [] == Changed(was, live);
  }

  lemma OrderedConcat(a: seq<Entry>, b: seq<Entry>)
    requires Ordered(a + b)
    ensures Ordered(a) && Ordered(b) && AllBelow(a, b)
  {
    PathsConcat(a, b);
    IncreasingParts(Paths(a), Paths(b));
    forall e, f | e in a && f in b ensures Less(e.path, f.path) {
      var i :| 0 <= i < |a| && a[i] == e;
      var j :| 0 <= j < |b| && b[j] == f;
      assert Paths(a)[i] in Paths(a) && Paths(b)[j] in Paths(b);
    }
  }

  lemma HeadBelowTail(all: seq<Entry>, gone: seq<Entry>, e: Entry, rest: seq<Entry>)
    requires all == gone + ([e] + rest) && Ordered(all)
    ensures all == (gone + [e]) + rest && Ordered(rest) && AllAbove(rest, e.path)
  {
    assert gone + ([e] + rest) == (gone + [e]) + rest;
    OrderedConcat(gone + [e], rest);
    assert e in gone + [e];
  }

  /** A base entry no live entry can match any more. */
  lemma RemoveStep(all: seq<Entry>, gone: seq<Entry>, e: Entry, rest: seq<Entry>, fed: seq<Entry>,
                   diffs: seq<Change>, compared: nat)
    requires Caught(all, gone, [e] + rest, fed, diffs, compared)
    ensures Caught(all, gone + [e], rest, fed, diffs + [Removed(e)], compared)
  {
    hide Merge, Common, Ordered, Less;
    assert e in [e] + rest;
    MergeSplit(gone, fed, [e], []);
    CommonSplit(gone, fed, [e], []);
    assert fed + [] == fed;
    OneRemoved(e);
    HeadBelowTail(all, gone, e, rest);
  }

  lemma MatchStep(all: seq<Entry>, gone: seq<Entry>, e: Entry, rest: seq<Entry>, fed: seq<Entry>, live: Entry,
                  diffs: seq<Change>, compared: nat)
    requires Caught(all, gone, [e] + rest, fed, diffs, compared)
    requires Passed(gone, fed, live.path) && e.path == live.path
    ensures Caught(all, gone + [e], rest, fed + [live], diffs + Changed(e, live), compared + 1)
    ensures Reached(gone + [e], fed + [live], live.path)
  {
    hide Merge, Common, Less, Changed;
    assert e in [e] + rest;
    HeadBelowTail(all, gone, e, rest);
    FedSnoc(fed, live, gone);
    hide Ordered;
    MergeSplit(gone, fed, [e], [live]);
    CommonSplit(gone, fed, [e], [live]);
    OneCompared(e, live);
  }

  lemma AddStep(all: seq<Entry>, gone: seq<Entry>, rest: seq<Entry>, fed: seq<Entry>, live: Entry,
                diffs: seq<Change>, compared: nat)
    requires Caught(all, gone, rest, fed, diffs, compared)
    requires Passed(gone, fed, live.path) && AllAbove(rest, live.path)
    ensures Caught(all, gone, rest, fed + [live], diffs + [Added(live)], compared)
    ensures Reached(gone, fed + [live], live.path)
  {
    hide Merge, Common, Less;
    FedSnoc(fed, live, gone);
    hide Ordered;
    MergeSplit(gone, fed, [], [live]);
    CommonSplit(gone, fed, [], [live]);
    assert gone + [] == gone;
    OneAdded(live);
  }

  lemma FedSnoc(fed: seq<Entry>, live: Entry, gone: seq<Entry>)
    requires Ordered(fed) && Passed(gone, fed, live.path)
    ensures Ordered(fed + [live])
  {
    PathsConcat(fed, [live]);
    forall x, y | x in Paths(fed) && y in Paths([live]) ensures Less(x, y) {
      var i :| 0 <= i < |fed| && Paths(fed)[i] == x;
      assert fed[i] in fed;
    }
    IncreasingConcat(Paths(fed), Paths([live]));
  }

  lemma ReportStep(o: Options, diffs: seq<Change>, c: Change)
    ensures Kept(o, diffs + [c]) == Kept(o, diffs) + (if IsReported(o, c) then [Presented(o, c)] else [])
    ensures TallyAll(o, diffs + [c]) == TallyOne(o, TallyAll(o, diffs), c)
  {
    assert (diffs + [c])[..|diffs|] == diffs;
  }

  // ---- the joiner ------------------------------------------------------------------------

  datatype Fed = Taken | NotInOrder | SourceFailed | Refused

  /** The last change handed over since then was refused. */
  predicate JustRefused(refuses: Change -> bool, was: seq<Change>, now: seq<Change>) {
    |was| < |now| && refuses(now[|now| - 1])
  }

  class Joiner {
    const base: Source
    const opts: Options
    const refuses: Change -> bool
    var current: Box?
    var tally: Tally
    var compared: nat
    var lastLive: Path
    var started: bool
    var done: bool
    var emitted: seq<Change>

    ghost var gone: seq<Entry>
    ghost var fed: seq<Entry>
    ghost var diffs: seq<Change>

    constructor (base: Source, opts: Options, refuses: Change -> bool)
      ensures this.base == base && this.opts == opts && this.refuses == refuses
      ensures current == null && gone == [] && fed == [] && diffs == [] && emitted == []
      ensures tally == Tally(map[], 0, 0) && compared == 0 && !started && !done
    {
      this.base, this.opts, this.refuses, current := base, opts, refuses, null;
      tally, compared, lastLive, started, done := Tally(map[], 0, 0), 0, [], false, false;
      emitted, gone, fed, diffs := [], [], [], [];
    }

    /** What of the base is still to be dealt with. */
    ghost function Rest(): seq<Entry>
      reads this, base, base.cell
      requires base.Valid()
    {
      (if current == null then [] else [base.cell.e]) + base.entries[base.pos..]
    }

    /** Between calls that did not fail. */
    ghost predicate Valid()
      reads this, base, base.cell
    {
      && Positioned()
      && Caught(base.entries, gone, Rest(), fed, diffs, compared)
      && Reported(opts, diffs, emitted, tally)
      && (started || (gone == [] && fed == []))
      && Reached(gone, fed, lastLive)
    }

    ghost predicate Positioned()
      reads this, base
    {
      base.Valid() && (current == null || current == base.cell)
      && (current == null ==> base.pos == |base.entries| && !base.breaks)
    }

    method Advance() returns (ok: bool)
      requires base.Valid()
      modifies this`current, base, base.cell
      ensures base.Valid() && (ok ==> Positioned() && Rest() == old(base.entries[base.pos..]))
      ensures !ok ==> base.breaks
    {
      var r := base.Next();
      match r
      case Exhausted => current := null; ok := true;
      case Failed => ok := false;
      case Filled =>
        current := base.cell;
        ok := true;
        assert [base.cell.e] + base.entries[base.pos..] == old(base.entries[base.pos..]);
    }

    /** report: ignored and hidden changes are counted apart, the others counted and handed over. */
    method Report(c: Change) returns (ok: bool)
      requires Reported(opts, diffs, emitted, tally)
      modifies this`tally, this`emitted, this`diffs
      ensures diffs == old(diffs) + [c] && Reported(opts, diffs, emitted, tally)
      ensures !ok <==> JustRefused(refuses, old(emitted), emitted)
      ensures old(emitted) <= emitted
    {
      hide Kept, TallyAll;
      ReportStep(opts, diffs, c);
      diffs := diffs + [c];
      if opts.ignore(c.op, c.path) {
        tally := tally.(ignored := tally.ignored + 1);
        return true;
      }
      if opts.show.Some? && c.op !in opts.show.value {
        tally := tally.(hidden := tally.hidden + 1);
        return true;
      }
      var shown := c;
      if c.op == OpAddedDir && opts.summarize.Some? {
        shown := shown.(summary := opts.summarize.value(c.path));
      }
      tally := tally.(counts := tally.counts[c.op := Count(tally.counts, c.op) + 1]);
      emitted := emitted + [shown];
      ok := !refuses(shown);
    }

    /** The current base entry has no live counterpart. */
    method ReportRemoved() returns (r: Fed)
      requires Positioned() && current != null
      requires Caught(base.entries, gone, Rest(), fed, diffs, compared) && Reported(opts, diffs, emitted, tally)
      modifies this`current, this`tally, this`emitted, this`diffs, this`gone, base, base.cell
      ensures r != NotInOrder
      ensures r == Taken ==>
                && Positioned() && old(Rest()) == [old(base.cell.e)] + Rest()
                && gone == old(gone) + [old(base.cell.e)] && |Rest()| < |old(Rest())|
                && Caught(base.entries, gone, Rest(), fed, diffs, compared) && Reported(opts, diffs, emitted, tally)
      ensures r == SourceFailed ==> base.breaks
      ensures r == Refused <==> JustRefused(refuses, old(emitted), emitted)
      ensures old(emitted) <= emitted
    {
      hide Caught, Reported;
      RemoveStep(base.entries, gone, base.cell.e, base.entries[base.pos..], fed, diffs, compared);
      var ok := Report(Removed(current.e));
      if !ok { return Refused; }
      gone := gone + [current.e];
      ok := Advance();
      return if ok then Taken else SourceFailed;
    }

    /** The next entry of the live system. */
    method Feed(live: Box) returns (r: Fed)
      requires Valid() && live != base.cell
      modifies this, base, base.cell
      ensures r == NotInOrder <==> old(started) && !Less(old(lastLive), live.e.path)
      ensures r == NotInOrder ==> unchanged(this) && unchanged(base) && unchanged(base.cell)
      ensures r == Taken ==> Valid() && fed == old(fed) + [live.e] && done == old(done)
      ensures r == Taken ==> started && lastLive == live.e.path
      ensures r == SourceFailed ==> base.breaks
      ensures r == Refused <==> JustRefused(refuses, old(emitted), emitted)
      ensures old(emitted) <= emitted
    {
      hide Caught, Reported, Reached, Passed, Less;
      if started {
        var c := CompareKey(lastLive, live.e.path);
        CompareDecides(lastLive, live.e.path);
        if c >= 0 { return NotInOrder; }
        ReachedThenPassed(gone, fed, lastLive, live.e.path);
      } else {
        NothingPassed(live.e.path);
      }
      lastLive, started := live.e.path, true;
      r := Place(live);
    }

    /** Report what the base lost before the live entry, then the entry itself. */
    method Place(live: Box) returns (r: Fed)
      requires Positioned() && Passed(gone, fed, live.e.path) && live != base.cell
      requires Caught(base.entries, gone, Rest(), fed, diffs, compared) && Reported(opts, diffs, emitted, tally)
      modifies this`current, this`tally, this`compared, this`emitted, this`diffs, this`gone, this`fed, base, base.cell
      ensures r != NotInOrder
      ensures r == Taken ==>
                && Positioned() && fed == old(fed) + [live.e] && Reached(gone, fed, live.e.path)
                && Caught(base.entries, gone, Rest(), fed, diffs, compared) && Reported(opts, diffs, emitted, tally)
      ensures r == SourceFailed ==> base.breaks
      ensures r == Refused <==> JustRefused(refuses, old(emitted), emitted)
      ensures old(emitted) <= emitted
    {
      hide Caught, Reported, Reached, Passed, Less, AllAbove;
      r := Drain(live.e.path);
      if r != Taken { return; }
      ghost var before := emitted;
      if current != null && current.e.path == live.e.path {
        r := Compared(live);
      } else {
        AddStep(base.entries, gone, Rest(), fed, live.e, diffs, compared);
        var ok := Report(Added(live.e));
        fed := fed + [live.e];
        r := if ok then Taken else Refused;
      }
      PrefixTrans(old(emitted), before, emitted);
    }

    /** The path is on both sides. */
    method Compared(live: Box) returns (r: Fed)
      requires Positioned() && current != null && current.e.path == live.e.path && live != base.cell
      requires Passed(gone, fed, live.e.path)
      requires Caught(base.entries, gone, Rest(), fed, diffs, compared) && Reported(opts, diffs, emitted, tally)
      modifies this`current, this`tally, this`compared, this`emitted, this`diffs, this`gone, this`fed, base, base.cell
      ensures r != NotInOrder
      ensures r == Taken ==>
                && Positioned() && fed == old(fed) + [live.e] && Reached(gone, fed, live.e.path)
                && Caught(base.entries, gone, Rest(), fed, diffs, compared) && Reported(opts, diffs, emitted, tally)
      ensures r == SourceFailed ==> base.breaks
      ensures r == Refused <==> JustRefused(refuses, old(emitted), emitted)
      ensures old(emitted) <= emitted
    {
      hide Caught, Reported, Reached, Passed, Less, Classify;
      MatchStep(base.entries, gone, base.cell.e, base.entries[base.pos..], fed, live.e, diffs, compared);
      compared := compared + 1;
      var op := ClassifyPair(current.e, live.e);
      if op != OpNone {
        var ok := Report(Change(op, live.e.path, Some(current.e), Some(live.e), None));
        if !ok { return Refused; }
      } else {
        assert diffs + Changed(current.e, live.e) == diffs;
      }
      gone := gone + [current.e];
      fed := fed + [live.e];
      var ok := Advance();
      return if ok then Taken else SourceFailed;
    }

    /** Everything of the base below p is gone from the system. */
    method Drain(p: Path) returns (r: Fed)
      requires Positioned() && Passed(gone, fed, p)
      requires Caught(base.entries, gone, Rest(), fed, diffs, compared) && Reported(opts, diffs, emitted, tally)
      modifies this`current, this`tally, this`emitted, this`diffs, this`gone, base, base.cell
      ensures r != NotInOrder
      ensures r == Taken ==>
                && Positioned() && Passed(gone, fed, p)
                && Caught(base.entries, gone, Rest(), fed, diffs, compared) && Reported(opts, diffs, emitted, tally)
                && (current == null || !Less(current.e.path, p))
                && (current == null || current.e.path != p ==> AllAbove(Rest(), p))
      ensures r == SourceFailed ==> base.breaks
      ensures r == Refused <==> JustRefused(refuses, old(emitted), emitted)
      ensures old(emitted) <= emitted
    {
      hide Caught, Reported, Passed, Less, AllAbove;
      while current != null
        invariant Positioned() && Passed(gone, fed, p)
        invariant Caught(base.entries, gone, Rest(), fed, diffs, compared) && Reported(opts, diffs, emitted, tally)
        invariant old(emitted) <= emitted && !JustRefused(refuses, old(emitted), emitted)
        decreases |Rest()|
      {
        var c := CompareKey(current.e.path, p);
        CompareDecides(current.e.path, p);
        if c >= 0 {
          RestAbove(base.entries, gone, current.e, base.entries[base.pos..], fed, diffs, compared, p);
          return Taken;
        }
        PassedSnoc(gone, fed, current.e, p);
        ghost var before := emitted;
        r := ReportRemoved();
        PrefixTrans(old(emitted), before, emitted);
        if r != Taken { return; }
      }
      assert base.entries[base.pos..] == [];
      NothingAbove(p);
      r := Taken;
    }

    /** The scan is over: what is left of the base was never reached. */
    method Finish() returns (r: Fed)
      requires Valid()
      modifies this, base, base.cell
      ensures old(done) ==> r == Taken && unchanged(this)
      ensures done && fed == old(fed)
      ensures r != NotInOrder && old(emitted) <= emitted
      ensures r == Taken && !old(done) ==>
                && emitted == Kept(opts, Merge(base.entries, fed))
                && tally == TallyAll(opts, Merge(base.entries, fed))
                && compared == Common(base.entries, fed)
      ensures r == Taken && !old(done) ==>
                && tally.ignored == HowMany(Merge(base.entries, fed), (c: Change) => opts.ignore(c.op, c.path))
                && tally.hidden == HowMany(Merge(base.entries, fed), (c: Change) =>
                     !opts.ignore(c.op, c.path) && opts.show.Some? && c.op !in opts.show.value)
                && forall d :: d in emitted
                      <==> exists c :: && c in Merge(base.entries, fed) && !opts.ignore(c.op, c.path)
                                       && (opts.show.Some? ==> c.op in opts.show.value)
                                       && d == (if c.op == OpAddedDir && opts.summarize.Some?
                                                then c.(summary := opts.summarize.value(c.path)) else c)
      ensures r == SourceFailed ==> base.breaks
      ensures r == Refused <==> JustRefused(refuses, old(emitted), emitted)
    {
      hide Caught, Reported, Kept, TallyAll, Merge, Common;
      if done { return Taken; }
      done := true;
      while current != null
        invariant Positioned() && done && fed == old(fed)
        invariant Caught(base.entries, gone, Rest(), fed, diffs, compared) && Reported(opts, diffs, emitted, tally)
        invariant old(emitted) <= emitted && !JustRefused(refuses, old(emitted), emitted)
        decreases |Rest()|
      {
        ghost var before := emitted;
        r := ReportRemoved();
        PrefixTrans(old(emitted), before, emitted);
        if r != Taken { return; }
      }
      assert base.entries[base.pos..] == [];
      AllGone(opts, base.entries, gone, Rest(), fed, diffs, compared, emitted, tally);
      TallyMeans(opts, Merge(base.entries, fed), OpNone);
      forall d { KeptMeans(opts, Merge(base.entries, fed), d); }
      r := Taken;
    }
  }

  lemma NothingPassed(p: Path)
    ensures Passed([], [], p)
  {
  }

  lemma NothingAbove(p: Path)
    ensures AllAbove([], p)
  {
  }

  lemma PrefixTrans(a: seq<Change>, b: seq<Change>, c: seq<Change>)
    requires a <= b
    ensures b <= c ==> a <= c
  {
  }

  lemma PassedSnoc(gone: seq<Entry>, fed: seq<Entry>, e: Entry, p: Path)
    requires Passed(gone, fed, p) && Less(e.path, p)
    ensures Passed(gone + [e], fed, p)
  {
  }

  lemma RestAbove(all: seq<Entry>, gone: seq<Entry>, e: Entry, rest: seq<Entry>, fed: seq<Entry>,
                  diffs: seq<Change>, compared: nat, p: Path)
    requires Caught(all, gone, [e] + rest, fed, diffs, compared) && !Less(e.path, p)
    ensures e.path != p ==> AllAbove([e] + rest, p)
  {
    hide Less, Merge, Common, Ordered;
    StrictTotalOrder(p, e.path, e.path);
    HeadBelowTail(all, gone, e, rest);
    if e.path != p { AboveTrans(rest, p, e.path); }
  }

  lemma AllGone(o: Options, all: seq<Entry>, gone: seq<Entry>, rest: seq<Entry>, fed: seq<Entry>, diffs: seq<Change>,
                compared: nat, emitted: seq<Change>, tally: Tally)
    requires Caught(all, gone, rest, fed, diffs, compared) && Reported(o, diffs, emitted, tally) && rest == []
    ensures emitted == Kept(o, Merge(all, fed)) && tally == TallyAll(o, Merge(all, fed)) && compared == Common(all, fed)
  {
    hide Kept, TallyAll, Merge, Common, Ordered;
    assert all == gone;
  }

  /** NewJoiner: null when the base cannot deliver its first entry. */
  method NewJoiner(base: Source, opts: Options, refuses: Change -> bool) returns (j: Joiner?)
    requires base.Valid() && base.pos == 0
    modifies base, base.cell
    ensures j == null ==> base.breaks
    ensures j != null ==>
              && fresh(j) && j.Valid() && j.base == base && j.opts == opts && j.refuses == refuses
              && j.fed == [] && j.emitted == [] && !j.done && !j.started
  {
    j := new Joiner(base, opts, refuses);
    var ok := j.Advance();
    if !ok { return null; }
    StartCaught(base.entries, base.entries[0..], opts);
  }

  lemma StartCaught(all: seq<Entry>, rest: seq<Entry>, o: Options)
    requires all == rest && Ordered(all)
    ensures Caught(all, [], rest, [], [], 0) && Reported(o, [], [], Tally(map[], 0, 0)) && Reached([], [], [])
  {
    assert [] + rest == rest;
  }
}
