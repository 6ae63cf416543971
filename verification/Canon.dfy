/** Byte strings, and the fixed-width integers the program stores. */
module Bytes {
  type byte = x: int | 0 <= x < 256
  type Bytes = seq<byte>
  type u32 = x: int | 0 <= x < 0x1_0000_0000
  type u64 = x: int | 0 <= x < 0x1_0000_0000_0000_0000
  type i64 = x: int | -0x8000_0000_0000_0000 <= x < 0x8000_0000_0000_0000

  datatype Option<+T> = None | Some(value: T)

  lemma Assoc<T>(a: seq<T>, b: seq<T>, c: seq<T>)
    ensures (a + b) + c == a + (b + c)
  {
  }

  /** How many elements satisfy p. */
  function HowMany<T>(s: seq<T>, p: T -> bool): nat {
    if s == [] then 0 else HowMany(s[..|s| - 1], p) + if p(s[|s| - 1]) then 1 else 0
  }

  lemma {:induction false} HowManyIsCardinality<T>(s: seq<T>, p: T -> bool)
    ensures HowMany(s, p) == |set i | 0 <= i < |s| && p(s[i])|
  {
    if s != [] {
      var n := |s| - 1;
      HowManyIsCardinality(s[..n], p);
      var before, all := set i | 0 <= i < n && p(s[..n][i]), set i | 0 <= i < |s| && p(s[i]);
      assert all == before + (if p(s[n]) then {n} else {});
    }
  }

  lemma {:induction false} HowManyCons<T>(x: T, s: seq<T>, p: T -> bool)
    ensures HowMany([x] + s, p) == (if p(x) then 1 else 0) + HowMany(s, p)
  {
    if s == [] {
      assert [x] + s == [x] && [x][..0] == [];
    } else {
      var n := |s| - 1;
      HowManyCons(x, s[..n], p);
      assert ([x] + s)[..|s|] == [x] + s[..n];
    }
  }

  /** Length of the longest common prefix. */
  function SharedPrefix(a: Bytes, b: Bytes): (k: nat)
    ensures k <= |a| && k <= |b|
    ensures a[..k] == b[..k]
    ensures k < |a| && k < |b| ==> a[k] != b[k]
  {
    if a == [] || b == [] || a[0] != b[0] then 0
    else
      var k := 1 + SharedPrefix(a[1..], b[1..]);
      assert a[..k] == [a[0]] + a[1..][..k - 1];
      assert b[..k] == [b[0]] + b[1..][..k - 1];
      k
  }

  lemma PrefixAgrees(a: Bytes, b: Bytes, k: nat)
    requires k <= |a| && k <= |b| && a[..k] == b[..k]
    ensures forall i | 0 <= i < k :: a[i] == b[i]
  {
    forall i | 0 <= i < k ensures a[i] == b[i] {
      assert a[i] == a[..k][i] && b[i] == b[..k][i];
    }
  }

  /** The three clauses of SharedPrefix determine it. */
  lemma SharedPrefixUnique(a: Bytes, b: Bytes, k: nat)
    requires k <= |a| && k <= |b| && a[..k] == b[..k]
    requires k < |a| && k < |b| ==> a[k] != b[k]
    ensures SharedPrefix(a, b) == k
  {
    PrefixAgrees(a, b, k);
    PrefixAgrees(a, b, SharedPrefix(a, b));
  }
}

/** The canonical order of paths (internal/canon/key.go). */
module Canon {
  import opened Bytes

  type Path = Bytes

  const SLASH: byte := 47
  const ROOT: Path := [SLASH]

  /** '/' sorts below every other byte. */
  function Rank(c: byte): int {
    if c == SLASH then -1 else c
  }

  /** The order CompareKey computes, read off the first position where the two paths differ. */
  function Compare(a: Path, b: Path): int {
    var k := SharedPrefix(a, b);
    if k == |a| && k == |b| then 0
    else if k == |a| then -1
    else if k == |b| then 1
    else if Rank(a[k]) < Rank(b[k]) then -1
    else 1
  }

  predicate Less(a: Path, b: Path) {
    Compare(a, b) < 0
  }

  method CompareKey(a: Path, b: Path) returns (r: int)
    ensures r == Compare(a, b)
  {
    var n := if |a| < |b| then |a| else |b|;
    var i := 0;
    while i < n
      invariant 0 <= i <= n
      invariant a[..i] == b[..i]
    {
      var ca, cb := a[i], b[i];
      if ca != cb {
        SharedPrefixUnique(a, b, i);
        if ca == SLASH { return -1; }
        if cb == SLASH { return 1; }
        if ca < cb { return -1; }
        return 1;
      }
      i := i + 1;
    }
    SharedPrefixUnique(a, b, n);
    if |a| < |b| { return -1; }
    if |a| > |b| { return 1; }
    return 0;
  }

  // ---- strict total order on all byte strings -------------------------------------------

  lemma CompareZero(a: Path, b: Path)
    ensures Compare(a, b) == 0 <==> a == b
  {
    if a == b { SharedPrefixUnique(a, b, |a|); }
    if Compare(a, b) == 0 { assert a == a[..|a|] == b[..|b|] == b; }
  }

  lemma CompareFlip(a: Path, b: Path)
    ensures Compare(b, a) == -Compare(a, b)
  {
    SharedPrefixUnique(b, a, SharedPrefix(a, b));
  }

  /** What each sign of the comparison says. */
  lemma CompareDecides(a: Path, b: Path)
    ensures Compare(a, b) > 0 <==> Less(b, a)
    ensures Compare(a, b) < 0 <==> Less(a, b)
    ensures Compare(a, b) == 0 <==> a == b
  {
    CompareFlip(a, b);
    CompareZero(a, b);
  }

  lemma LessTransitive(a: Path, b: Path, c: Path)
    requires Less(a, b) && Less(b, c)
    ensures Less(a, c)
  {
    var j, k := SharedPrefix(a, b), SharedPrefix(b, c);
    var m := if j < k then j else k;
    assert a[..m] == a[..j][..m] == b[..j][..m] == b[..m];
    assert b[..m] == b[..k][..m] == c[..k][..m] == c[..m];
    PrefixAgrees(a, b, j);
    PrefixAgrees(b, c, k);
    SharedPrefixUnique(a, c, m);
  }

  /** For every two paths exactly one of <, =, > holds, and < is transitive. */
  lemma StrictTotalOrder(a: Path, b: Path, c: Path)
    ensures !Less(a, a)
    ensures (if Less(a, b) then 1 else 0) + (if Less(b, a) then 1 else 0) + (if a == b then 1 else 0) == 1
    ensures Less(a, b) && Less(b, c) ==> Less(a, c)
  {
    CompareZero(a, a);
    CompareZero(a, b);
    CompareFlip(a, b);
    if Less(a, b) && Less(b, c) { LessTransitive(a, b, c); }
  }

  // ---- the same order, component by component -------------------------------------------

  /** strings.Split(p, "/"). */
  function Components(p: Path): (r: seq<Bytes>)
    ensures |r| > 0
  {
    if p == [] then [[]]
    else
      var tail := Components(p[1..]);
      if p[0] == SLASH then [[]] + tail else [[p[0]] + tail[0]] + tail[1..]
  }

  /** Plain byte order, shorter string first: the order in which a directory is listed. */
  function CompareNames(a: Bytes, b: Bytes): int {
    if a == [] || b == [] then (if a == b then 0 else if a == [] then -1 else 1)
    else if a[0] == b[0] then CompareNames(a[1..], b[1..])
    else if a[0] < b[0] then -1
    else 1
  }

  /** Component lists, first difference decides, shorter list first. */
  function CompareLists(a: seq<Bytes>, b: seq<Bytes>): int {
    if a == [] || b == [] then (if a == b then 0 else if a == [] then -1 else 1)
    else if a[0] == b[0] then CompareLists(a[1..], b[1..])
    else CompareNames(a[0], b[0])
  }

  lemma CompareStep(a: Path, b: Path)
    requires a != [] && b != [] && a[0] == b[0]
    ensures Compare(a, b) == Compare(a[1..], b[1..])
  {
    var k := SharedPrefix(a[1..], b[1..]);
    assert a[..k + 1] == [a[0]] + a[1..][..k];
    assert b[..k + 1] == [b[0]] + b[1..][..k];
    SharedPrefixUnique(a, b, k + 1);
  }

  lemma CompareNamesZero(a: Bytes, b: Bytes)
    ensures CompareNames(a, b) == 0 <==> a == b
  {
    if a != [] && b != [] && a[0] == b[0] {
      CompareNamesZero(a[1..], b[1..]);
      assert a == [a[0]] + a[1..] && b == [b[0]] + b[1..];
    }
  }

  /** One pass over the bytes orders paths exactly as comparing their components does. */
  lemma {:induction false} CompareIsComponentwise(a: Path, b: Path)
    ensures Compare(a, b) == CompareLists(Components(a), Components(b))
    decreases |a|
  {
    var x, y := Components(a), Components(b);
    if a == [] || b == [] {
      CompareZero(a, b);
      SharedPrefixUnique(a, b, 0);
    } else if a[0] != b[0] {
      SharedPrefixUnique(a, b, 0);
      if a[0] != SLASH { assert x[0][0] == a[0]; }
      if b[0] != SLASH { assert y[0][0] == b[0]; }
    } else {
      CompareStep(a, b);
      CompareIsComponentwise(a[1..], b[1..]);
      var s, t := Components(a[1..]), Components(b[1..]);
      if a[0] == SLASH {
        assert x[1..] == s && y[1..] == t;
      } else {
        assert x[0][1..] == s[0] && y[0][1..] == t[0];
        assert x[1..] == s[1..] && y[1..] == t[1..];
        CompareNamesZero(x[0], y[0]);
        CompareNamesZero(s[0], t[0]);
      }
    }
  }

  // ---- subtrees --------------------------------------------------------------------------

  /** What every path strictly below directory d starts with. */
  function Prefix(d: Path): (p: Path) {
    if d == ROOT then d else d + [SLASH]
  }

  /** x is strictly below directory d. */
  predicate Below(x: Path, d: Path) {
    d < x && (d == ROOT || x[|d|] == SLASH)
  }

  predicate AtOrBelow(x: Path, d: Path) {
    x == d || Below(x, d)
  }

  /** filepath.Join of a cleaned directory and one name of its listing. */
  function Join(d: Path, name: Bytes): Path {
    Prefix(d) + name
  }

  lemma PrefixComesFirst(a: Path, b: Path)
    requires a < b
    ensures Less(a, b)
  {
    SharedPrefixUnique(a, b, |a|);
  }

  lemma BelowTransitive(x: Path, y: Path, z: Path)
    requires Below(x, y) && Below(y, z)
    ensures Below(x, z)
  {
    if z != ROOT { assert x[|z|] == y[|z|]; }
  }

  /** A subtree is an interval: nothing outside it sorts between its root and one of its members. */
  lemma SubtreeIsInterval(d: Path, x: Path, y: Path)
    requires Below(y, d) && Less(d, x) && Less(x, y)
    ensures Below(x, d)
  {
    var n := |d|;
    var j, k := SharedPrefix(d, x), SharedPrefix(x, y);
    assert d == y[..n];
    PrefixAgrees(d, x, j);
    PrefixAgrees(x, y, k);
    PrefixAgrees(d, y, n);
  }

  /** Everything at or below one name of a directory sorts before everything at or below a later
      name, although neither name need be a prefix of the other. */
  lemma SiblingSubtreesOrdered(d: Path, a: Bytes, b: Bytes, x: Path, y: Path)
    requires CompareNames(a, b) < 0
    requires SLASH !in a && SLASH !in b
    requires AtOrBelow(x, Join(d, a)) && AtOrBelow(y, Join(d, b))
    requires a != [] && b != []
    ensures Less(x, y)
  {
    var p := Prefix(d);
    var k := FirstNameDifference(a, b);
    assert Join(d, a) != ROOT && Join(d, b) != ROOT;
    StartsWith(p, a, k, x);
    StartsWith(p, b, k, y);
    SharedPrefixUnique(x, y, |p| + k);
  }

  /** What a path that begins with p + name holds at and before the k-th byte of that name. */
  lemma StartsWith(p: Bytes, name: Bytes, k: nat, x: Path)
    requires k <= |name| && SLASH !in name
    requires p + name <= x && (|p + name| < |x| ==> x[|p + name|] == SLASH)
    ensures |p| + k <= |x| && x[..|p| + k] == p + name[..k]
    ensures |p| + k < |x| ==> x[|p| + k] == (if k < |name| then name[k] else SLASH)
  {
    assert x[..|p| + k] == (p + name)[..|p| + k];
    if k < |name| { assert x[|p| + k] == (p + name)[|p| + k]; }
  }

  lemma FirstNameDifference(a: Bytes, b: Bytes) returns (k: nat)
    requires CompareNames(a, b) < 0
    ensures k <= |a| && k < |b| && a[..k] == b[..k]
    ensures k < |a| ==> a[k] < b[k]
  {
    if a == [] || a[0] != b[0] {
      k := 0;
    } else {
      var m := FirstNameDifference(a[1..], b[1..]);
      k := m + 1;
      assert a[..k] == [a[0]] + a[1..][..m];
      assert b[..k] == [b[0]] + b[1..][..m];
    }
  }

  lemma JoinBelow(d: Path, name: Bytes)
    requires name != []
    ensures Below(Join(d, name), d)
  {
    var j := Join(d, name);
    assert j == Prefix(d) + name;
    assert j[..|d|] == d;
  }

  // ---- sequences in canonical order ------------------------------------------------------

  ghost predicate Increasing(ps: seq<Path>) {
    forall i, j | 0 <= i < j < |ps| :: Less(ps[i], ps[j])
  }

  lemma IncreasingConcat(a: seq<Path>, b: seq<Path>)
    requires Increasing(a) && Increasing(b)
    requires forall x, y | x in a && y in b :: Less(x, y)
    ensures Increasing(a + b)
  {
  }

  lemma IncreasingParts(a: seq<Path>, b: seq<Path>)
    requires Increasing(a + b)
    ensures Increasing(a) && Increasing(b)
    ensures forall x, y | x in a && y in b :: Less(x, y)
  {
    var s := a + b;
    forall i, j | 0 <= i < j < |a| ensures Less(a[i], a[j]) { assert s[i] == a[i] && s[j] == a[j]; }
    forall i, j | 0 <= i < j < |b| ensures Less(b[i], b[j]) {
      assert s[|a| + i] == b[i] && s[|a| + j] == b[j];
    }
    forall x, y | x in a && y in b ensures Less(x, y) {
      var i :| 0 <= i < |a| && a[i] == x;
      var j :| 0 <= j < |b| && b[j] == y;
      assert s[i] == x && s[|a| + j] == y;
    }
  }
}
