/** The decision table of a comparison (internal/diff/op.go, internal/diff/classify.go). */
module Classification {
  import opened Bytes
  import opened ScanEntry

  datatype Op =
    | OpNone
    | OpAddedDir | OpRemovedDir | OpChangedDir
    | OpAdded | OpRemoved | OpChangedFile | OpChangedMeta
    | OpTypeChanged | OpRetargeted | OpUnreadable

  /** What moved; the program renders these as text. */
  datatype Fact = SizeMoved | MTimeMoved | ModeMoved | UidMoved | GidMoved

  predicate SameAttributes(was: Entry, live: Entry) {
    was.mode == live.mode && was.uid == live.uid && was.gid == live.gid
  }

  /** Both sides were hashed, so content can be compared. */
  predicate BothHashed(was: Entry, live: Entry) {
    was.hashed && live.hashed
  }

  /** The category the table assigns, first applicable line first. */
  function Classify(was: Entry, live: Entry): Op {
    if live.err != [] || was.err != [] then OpUnreadable
    else if was.typ != live.typ then OpTypeChanged
    else if live.typ == TYPE_SYMLINK && was.link != live.link then OpRetargeted
    else if live.typ == TYPE_FILE && BothHashed(was, live) && was.hash != live.hash then OpChangedFile
    else if live.typ == TYPE_FILE && !BothHashed(was, live)
        && (was.size != live.size || was.mtime != live.mtime) then OpChangedMeta
    else if SameAttributes(was, live) then OpNone
    else if live.typ == TYPE_DIR then OpChangedDir
    else OpChangedMeta
  }

  method CompareUnhashed(was: Entry, live: Entry) returns (parts: seq<Fact>)
    ensures SizeMoved in parts <==> was.size != live.size
    ensures MTimeMoved in parts <==> was.mtime != live.mtime
    ensures forall f | f in parts :: f == SizeMoved || f == MTimeMoved
  {
    parts := [];
    if was.size != live.size { parts := parts + [SizeMoved]; }
    if was.mtime != live.mtime { parts := parts + [MTimeMoved]; }
  }

  method CompareAttributes(was: Entry, live: Entry) returns (parts: seq<Fact>)
    ensures ModeMoved in parts <==> was.mode != live.mode
    ensures UidMoved in parts <==> was.uid != live.uid
    ensures GidMoved in parts <==> was.gid != live.gid
    ensures forall f | f in parts :: f == ModeMoved || f == UidMoved || f == GidMoved
  {
    parts := [];
    if was.mode != live.mode { parts := parts + [ModeMoved]; }
    if was.uid != live.uid { parts := parts + [UidMoved]; }
    if was.gid != live.gid { parts := parts + [GidMoved]; }
  }

  method ClassifyPair(was: Entry, live: Entry) returns (op: Op)
    ensures op == Classify(was, live)
  {
    if live.err != [] { return OpUnreadable; }
    if was.err != [] { return OpUnreadable; }
    if was.typ != live.typ { return OpTypeChanged; }
    if live.typ == TYPE_SYMLINK && was.link != live.link { return OpRetargeted; }
    if live.typ == TYPE_FILE {
      if was.hashed && live.hashed {
        if was.hash != live.hash { return OpChangedFile; }
      } else {
        var d := CompareUnhashed(was, live);
        assert d != [] <==> was.size != live.size || was.mtime != live.mtime by {
          if d != [] { assert d[0] in d; }
        }
        if d != [] { return OpChangedMeta; }
      }
    }
    var d := CompareAttributes(was, live);
    assert d != [] <==> !SameAttributes(was, live) by {
      if d != [] { assert d[0] in d; }
    }
    if d != [] {
      if live.typ == TYPE_DIR { return OpChangedDir; }
      return OpChangedMeta;
    }
    return OpNone;
  }

  /** The category of an entry present on one side only. */
  function OpForMissing(e: Entry, added: bool): (op: Op)
    ensures op != OpNone
    ensures added <==> op == OpAddedDir || op == OpAdded
    ensures op == OpAddedDir || op == OpRemovedDir <==> e.typ == TYPE_DIR
  {
    if e.typ == TYPE_DIR && added then OpAddedDir
    else if e.typ == TYPE_DIR then OpRemovedDir
    else if added then OpAdded
    else OpRemoved
  }

  /** The evidence each category answers to. */
  lemma ClassifyMeans(was: Entry, live: Entry)
    ensures var op, readable := Classify(was, live), was.err == [] && live.err == [];
            var alike := readable && was.typ == live.typ;
            var relinked := live.typ == TYPE_SYMLINK && was.link != live.link;
            var rewritten := live.typ == TYPE_FILE && was.hashed && live.hashed && was.hash != live.hash;
            var unverified := live.typ == TYPE_FILE && !(was.hashed && live.hashed)
                              && (was.size != live.size || was.mtime != live.mtime);
            var owned := was.mode != live.mode || was.uid != live.uid || was.gid != live.gid;
            && (op == OpUnreadable <==> !readable)
            && (op == OpTypeChanged <==> readable && was.typ != live.typ)
            && (op == OpRetargeted <==> alike && relinked)
            && (op == OpChangedFile <==> alike && rewritten)
            && (op == OpChangedDir <==> alike && live.typ == TYPE_DIR && owned)
            && (op == OpChangedMeta <==>
                  alike && live.typ != TYPE_DIR && !relinked && !rewritten && (unverified || owned))
            && (op == OpNone <==> alike && !relinked && !rewritten && !unverified && !owned)
  {
  }

  /** A changed pair is never reported under a category reserved for one-sided entries. */
  lemma ClassifyIsTwoSided(was: Entry, live: Entry)
    ensures Classify(was, live) !in {OpAddedDir, OpRemovedDir, OpAdded, OpRemoved}
  {
  }

  /** The modification time decides nothing unless a file on one side was never hashed. */
  lemma MTimeIgnored(was: Entry, live: Entry, s: i64, t: i64)
    requires live.typ == TYPE_FILE && was.typ == TYPE_FILE ==> BothHashed(was, live)
    ensures Classify(was.(mtime := s), live.(mtime := t)) == Classify(was, live)
  {
    var o, l := was.(mtime := s), live.(mtime := t);
    assert o.typ == was.typ && l.typ == live.typ && SameAttributes(o, l) == SameAttributes(was, live);
  }

  /** Against itself an entry is unchanged, unless it carries an error. */
  lemma ClassifySelf(e: Entry)
    ensures Classify(e, e) == if e.err != [] then OpUnreadable else OpNone
  {
  }
}
