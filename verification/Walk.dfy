/** A finite filesystem, and the walk of it (internal/scan/walk.go, internal/scan/hash.go). */
module Walk {
  import opened Bytes
  import opened Canon
  import opened ScanEntry

  // ---- the filesystem --------------------------------------------------------------------

  /** What lstat says. */
  datatype Info = Info(typ: byte, mode: u32, uid: u32, gid: u32, size: i64, mtime: i64, dev: u64, ino: u64, nlink: u32)

  datatype Readlink = Target(link: Bytes) | LinkFails(why: Bytes)

  /** listErr and kids together are what os.ReadDir returns: a listing may be partial. */
  datatype Node = Node(info: Info, readlink: Readlink, listErr: Option<Bytes>, kids: Listing)

  datatype Listing = End | Dirent(name: Bytes, stat: Stat, rest: Listing)

  /** Gone: the name was listed but could not be stat'ed. */
  datatype Stat = Gone(why: Bytes) | Present(node: Node)

  datatype Content = OpenFails(why: Bytes) | ReadFails(why: Bytes) | Sum(digest: Digest)

  datatype MountPolicy = MountLocal | MountSame | MountAll

  datatype FSKind = FSLocal | FSPseudo | FSNetwork | FSUnknown

  datatype Config = Config(
    exclude: Path -> bool,
    mounts: MountPolicy,
    kind: Path -> FSKind,
    maxDepth: nat,
    descend: Entry -> bool,
    noHash: bool,
    maxFileSize: i64,
    content: Path -> Content)

  /** Names in a tree; every recursion below is on this. */
  function NodeSize(node: Node): (n: nat)
    ensures n > ListSize(node.kids)
    decreases node, 1
  {
    2 + ListSize(node.kids)
  }

  function ListSize(kids: Listing): nat
    decreases kids, 0
  {
    match kids
    case End => 0
    case Dirent(_, stat, rest) => 1 + (if stat.Present? then NodeSize(stat.node) else 0) + ListSize(rest)
  }

  // ---- what one visit commits ------------------------------------------------------------

  function StatEntry(path: Path, node: Node): Entry {
    var i := node.info;
    BLANK.(path := path, typ := i.typ, mode := i.mode, size := i.size, mtime := i.mtime, uid := i.uid, gid := i.gid,
           dev := i.dev, ino := i.ino, nlink := i.nlink,
           link := if i.typ == TYPE_SYMLINK && node.readlink.Target? then node.readlink.link else [],
           err := if i.typ == TYPE_SYMLINK && node.readlink.LinkFails? then node.readlink.why else [])
  }

  function ErrorEntry(path: Path, why: Bytes): Entry {
    BLANK.(path := path, typ := TYPE_ERROR, err := why)
  }

  predicate CrossMount(cfg: Config, path: Path) {
    cfg.mounts == MountAll || (cfg.mounts == MountLocal && cfg.kind(path) == FSLocal)
  }

  predicate MayDescend(cfg: Config, e: Entry, depth: nat, parentDev: u64) {
    depth == 0
    || ((e.dev == parentDev || CrossMount(cfg, e.path)) && depth < cfg.maxDepth && cfg.descend(e))
  }

  predicate Enters(cfg: Config, path: Path, node: Node, depth: nat, parentDev: u64) {
    node.info.typ == TYPE_DIR && MayDescend(cfg, StatEntry(path, node), depth, parentDev)
  }

  /** The entry of path as it is handed to a worker or committed. */
  function Draft(cfg: Config, path: Path, node: Node, depth: nat, parentDev: u64): (e: Entry)
    ensures e.path == path && e.typ == node.info.typ && e.dev == node.info.dev
  {
    var e := StatEntry(path, node);
    if Enters(cfg, path, node, depth, parentDev) && node.listErr.Some? then e.(err := node.listErr.value) else e
  }

  /** What the walk commits for path and everything below it, in order. */
  function Visit(cfg: Config, path: Path, node: Node, depth: nat, parentDev: u64): seq<Entry>
    decreases node, 1
  {
    [Draft(cfg, path, node, depth, parentDev)]
    + (if Enters(cfg, path, node, depth, parentDev) then VisitKids(cfg, path, node.kids, depth + 1, node.info.dev)
        else [])
  }

  function VisitKids(cfg: Config, dir: Path, kids: Listing, depth: nat, parentDev: u64): seq<Entry>
    decreases kids, 0
  {
    match kids
    case End => []
    case Dirent(name, stat, rest) => VisitOne(cfg, Join(dir, name), stat, depth, parentDev)
                                     + VisitKids(cfg, dir, rest, depth, parentDev)
  }

  function VisitOne(cfg: Config, path: Path, stat: Stat, depth: nat, parentDev: u64): seq<Entry>
    decreases stat, 2
  {
    if cfg.exclude(path) then []
    else
      match stat
      case Gone(why) => [ErrorEntry(path, why)]
      case Present(node) => Visit(cfg, path, node, depth, parentDev)
  }

  // ---- hashing ---------------------------------------------------------------------------

  predicate NeedsHash(cfg: Config, e: Entry) {
    e.typ == TYPE_FILE && !cfg.noHash
  }

  function Hashed(cfg: Config, e: Entry): Entry {
    if cfg.maxFileSize > 0 && e.size > cfg.maxFileSize then e.(partial := true)
    else
      match cfg.content(e.path)
      case OpenFails(why) => e.(err := why)
      case ReadFails(why) => e.(err := why)
      case Sum(digest) => e.(hash := digest, hashed := true)
  }

  function Finished(cfg: Config, e: Entry): Entry {
    if NeedsHash(cfg, e) then Hashed(cfg, e) else e
  }

  function FinishAll(cfg: Config, es: seq<Entry>): (r: seq<Entry>)
    ensures |r| == |es|
    ensures forall i | 0 <= i < |es| :: r[i] == Finished(cfg, es[i])
  {
    seq(|es|, i requires 0 <= i < |es| => Finished(cfg, es[i]))
  }

  /** The sequential walk: every entry in pre-order, with hashing applied. */
  function Scan(cfg: Config, root: Path, tree: Node): seq<Entry> {
    FinishAll(cfg, Visit(cfg, root, tree, 0, tree.info.dev))
  }

  lemma FinishedKeeps(cfg: Config, e: Entry)
    ensures var f := Finished(cfg, e);
            f.path == e.path && f.typ == e.typ && f.dev == e.dev && f.size == e.size && f.mtime == e.mtime
    ensures Hashed(cfg, Hashed(cfg, e)) == Hashed(cfg, e)
  {
  }

  lemma NothingFinished(cfg: Config)
    ensures FinishAll(cfg, []) == []
  {
  }

  lemma FinishAllConcat(cfg: Config, a: seq<Entry>, b: seq<Entry>)
    ensures FinishAll(cfg, a + b) == FinishAll(cfg, a) + FinishAll(cfg, b)
  {
    hide Finished;
  }

  lemma FinishAllPaths(cfg: Config, es: seq<Entry>)
    ensures Paths(FinishAll(cfg, es)) == Paths(es)
  {
    forall i | 0 <= i < |es| ensures Finished(cfg, es[i]).path == es[i].path { FinishedKeeps(cfg, es[i]); }
  }

  // ---- the walk is in canonical order ----------------------------------------------------

  /** A listing as os.ReadDir returns it: sorted by name, no duplicates, no '/'. */
  ghost predicate Listed(kids: Listing)
    decreases kids, 0
  {
    kids.Dirent? ==>
      && kids.name != [] && SLASH !in kids.name
      && (kids.rest.Dirent? ==> CompareNames(kids.name, kids.rest.name) < 0)
      && (kids.stat.Present? ==> WellFormed(kids.stat.node))
      && Listed(kids.rest)
  }

  ghost predicate WellFormed(node: Node)
    decreases node, 1
  {
    node.info.typ != TYPE_ERROR && Listed(node.kids)
  }

  lemma {:induction false} NamesTransitive(a: Bytes, b: Bytes, c: Bytes)
    requires CompareNames(a, b) < 0 && CompareNames(b, c) < 0
    ensures CompareNames(a, c) < 0
  {
    if a != [] && b != [] && c != [] && a[0] == b[0] && b[0] == c[0] {
      NamesTransitive(a[1..], b[1..], c[1..]);
    }
  }

  ghost predicate AllAtOrBelow(es: seq<Entry>, d: Path) {
    forall e | e in es :: AtOrBelow(e.path, d)
  }

  ghost predicate AllUnder(es: seq<Entry>, d: Path) {
    forall e | e in es :: Below(e.path, d)
  }

  lemma JoinThenBelow(dir: Path, name: Bytes, es: seq<Entry>)
    requires name != [] && AllAtOrBelow(es, Join(dir, name))
    ensures AllUnder(es, dir)
  {
    hide Below;
    JoinBelow(dir, name);
    forall e | e in es ensures Below(e.path, dir) {
      if e.path != Join(dir, name) { BelowTransitive(e.path, Join(dir, name), dir); }
    }
  }

  /** A walk stays inside its subtree. */
  lemma {:induction false} VisitInside(cfg: Config, path: Path, node: Node, depth: nat, pdev: u64)
    requires WellFormed(node)
    ensures AllAtOrBelow(Visit(cfg, path, node, depth, pdev), path)
    decreases node, 1
  {
    hide Draft, Enters, Below;
    KidsInside(cfg, path, node.kids, depth + 1, node.info.dev);
  }

  lemma {:induction false} KidsInside(cfg: Config, dir: Path, kids: Listing, depth: nat, pdev: u64)
    requires Listed(kids)
    ensures AllUnder(VisitKids(cfg, dir, kids, depth, pdev), dir)
    decreases kids, 0
  {
    hide Visit, Below;
    if kids.Dirent? {
      OneInside(cfg, Join(dir, kids.name), kids.stat, depth, pdev);
      JoinThenBelow(dir, kids.name, VisitOne(cfg, Join(dir, kids.name), kids.stat, depth, pdev));
      KidsInside(cfg, dir, kids.rest, depth, pdev);
    }
  }

  lemma {:induction false} OneInside(cfg: Config, path: Path, stat: Stat, depth: nat, pdev: u64)
    requires stat.Present? ==> WellFormed(stat.node)
    ensures AllAtOrBelow(VisitOne(cfg, path, stat, depth, pdev), path)
    decreases stat, 2
  {
    hide Visit, Below;
    if stat.Present? { VisitInside(cfg, path, stat.node, depth, pdev); }
  }

  /** Names after a in a listing lead to paths above everything at or below a. */
  lemma {:induction false} LaterKidsAbove(cfg: Config, dir: Path, a: Bytes, x: Path, kids: Listing, depth: nat,
                                          pdev: u64)
    requires Listed(kids) && a != [] && SLASH !in a && AtOrBelow(x, Join(dir, a))
    requires kids.Dirent? ==> CompareNames(a, kids.name) < 0
    ensures forall e | e in VisitKids(cfg, dir, kids, depth, pdev) :: Less(x, e.path)
    decreases kids
  {
    hide Visit, Below, Less, CompareNames, Join;
    if kids.Dirent? {
      var one := VisitOne(cfg, Join(dir, kids.name), kids.stat, depth, pdev);
      OneInside(cfg, Join(dir, kids.name), kids.stat, depth, pdev);
      forall e | e in one ensures Less(x, e.path) {
        SiblingSubtreesOrdered(dir, a, kids.name, x, e.path);
      }
      if kids.rest.Dirent? { NamesTransitive(a, kids.name, kids.rest.name); }
      LaterKidsAbove(cfg, dir, a, x, kids.rest, depth, pdev);
    }
  }

  lemma ConsOrdered(e: Entry, es: seq<Entry>)
    requires Ordered(es) && forall f | f in es :: Less(e.path, f.path)
    ensures Ordered([e] + es)
  {
    hide Less;
    OrderedAppend([e], es);
  }

  lemma OrderedAppend(a: seq<Entry>, b: seq<Entry>)
    requires Ordered(a) && Ordered(b) && forall e, f | e in a && f in b :: Less(e.path, f.path)
    ensures Ordered(a + b)
  {
    hide Less;
    PathsConcat(a, b);
    forall x, y | x in Paths(a) && y in Paths(b) ensures Less(x, y) {
      var i :| 0 <= i < |a| && Paths(a)[i] == x;
      var j :| 0 <= j < |b| && Paths(b)[j] == y;
      assert a[i] in a && b[j] in b;
    }
    IncreasingConcat(Paths(a), Paths(b));
  }

  /** Whatever is excluded, pruned or unreadable, the paths come out strictly increasing. */
  lemma {:induction false} VisitOrdered(cfg: Config, path: Path, node: Node, depth: nat, pdev: u64)
    requires WellFormed(node)
    ensures Ordered(Visit(cfg, path, node, depth, pdev))
    decreases node, 1
  {
    hide Enters, Less, Below;
    if Enters(cfg, path, node, depth, pdev) {
      var kids := VisitKids(cfg, path, node.kids, depth + 1, node.info.dev);
      KidsOrdered(cfg, path, node.kids, depth + 1, node.info.dev);
      KidsInside(cfg, path, node.kids, depth + 1, node.info.dev);
      hide VisitKids, Ordered;
      forall e | e in kids ensures Less(path, e.path) { BelowIsAbove(e.path, path); }
      ConsOrdered(Draft(cfg, path, node, depth, pdev), kids);
    }
  }

  lemma BelowIsAbove(x: Path, d: Path)
    requires Below(x, d)
    ensures Less(d, x)
  {
    PrefixComesFirst(d, x);
  }

  lemma {:induction false} KidsOrdered(cfg: Config, dir: Path, kids: Listing, depth: nat, pdev: u64)
    requires Listed(kids)
    ensures Ordered(VisitKids(cfg, dir, kids, depth, pdev))
    decreases kids, 0
  {
    hide Visit, Less, Below, CompareNames;
    if kids.Dirent? {
      var path := Join(dir, kids.name);
      var one, later := VisitOne(cfg, path, kids.stat, depth, pdev), VisitKids(cfg, dir, kids.rest, depth, pdev);
      OneOrdered(cfg, path, kids.stat, depth, pdev);
      OneInside(cfg, path, kids.stat, depth, pdev);
      KidsOrdered(cfg, dir, kids.rest, depth, pdev);
      hide Ordered;
      forall e, f | e in one && f in later ensures Less(e.path, f.path) {
        LaterKidsAbove(cfg, dir, kids.name, e.path, kids.rest, depth, pdev);
      }
      OrderedAppend(one, later);
    }
  }

  lemma {:induction false} OneOrdered(cfg: Config, path: Path, stat: Stat, depth: nat, pdev: u64)
    requires stat.Present? ==> WellFormed(stat.node)
    ensures Ordered(VisitOne(cfg, path, stat, depth, pdev))
    decreases stat, 2
  {
    hide Visit, Less;
    if stat.Present? { VisitOrdered(cfg, path, stat.node, depth, pdev); }
  }

  /** The stream a scan produces can be written and joined. */
  lemma ScanOrdered(cfg: Config, root: Path, tree: Node)
    requires WellFormed(tree)
    ensures Ordered(Scan(cfg, root, tree))
  {
    hide Visit;
    VisitOrdered(cfg, root, tree, 0, tree.info.dev);
    FinishAllPaths(cfg, Visit(cfg, root, tree, 0, tree.info.dev));
  }
}
