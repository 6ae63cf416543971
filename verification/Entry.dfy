/** One filesystem object (internal/scan/entry.go). */
module ScanEntry {
  import opened Bytes
  import opened Canon

  type Digest = s: Bytes | |s| == 32 witness NO_HASH

  const NO_HASH: Bytes := [0, 0, 0, 0, 0, 0, 0, 0, 0, 0, 0, 0, 0, 0, 0, 0,
                          0, 0, 0, 0, 0, 0, 0, 0, 0, 0, 0, 0, 0, 0, 0, 0]

  // The letters ls uses.
  const TYPE_UNKNOWN: byte := 0
  const TYPE_DIR: byte := 100
  const TYPE_FILE: byte := 102
  const TYPE_SYMLINK: byte := 108
  const TYPE_ERROR: byte := 33

  datatype Entry = Entry(
    path: Path, typ: byte,
    mode: u32, uid: u32, gid: u32, size: i64, mtime: i64,
    hash: Digest, hashed: bool, partial: bool,
    link: Bytes,
    dev: u64, ino: u64, nlink: u32,
    err: Bytes)

  /** The zero value a cell is reset to. */
  const BLANK: Entry := Entry([], TYPE_UNKNOWN, 0, 0, 0, 0, 0, NO_HASH, false, false, [], 0, 0, 0, [])

  function Paths(es: seq<Entry>): (ps: seq<Path>)
    ensures |ps| == |es|
    ensures forall i | 0 <= i < |es| :: ps[i] == es[i].path
  {
    seq(|es|, i requires 0 <= i < |es| => es[i].path)
  }

  lemma PathsConcat(a: seq<Entry>, b: seq<Entry>)
    ensures Paths(a + b) == Paths(a) + Paths(b)
  {
  }

  /** Strictly increasing in canonical order: what every stream of entries must be. */
  ghost predicate Ordered(es: seq<Entry>) {
    Increasing(Paths(es))
  }
}
