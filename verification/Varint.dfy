/** Base-128 integers as encoding/binary writes and reads them: seven bits a byte, least
    significant group first, zigzag for signed values. */
module Varint {
  import opened Bytes

  const MAX_VARINT_LEN: nat := 10

  /** AppendUvarint's bytes. */
  function PutUvarint(x: u64): (s: Bytes)
    ensures 1 <= |s|
  {
    if x < 128 then [x] else [x % 128 + 128] + PutUvarint(x / 128)
  }

  /** Values that fit in the groups after the first i. */
  function Room(i: nat): (r: nat)
    requires i <= MAX_VARINT_LEN
    ensures 2 <= r && (i < 9 ==> 256 <= r)
    decreases MAX_VARINT_LEN - i
  {
    if i >= 9 then 2 else 128 * Room(i + 1)
  }

  lemma RoomOfAll()
    ensures Room(0) == 0x1_0000_0000_0000_0000
  {
    assert Room(9) == 2;
    assert Room(8) == 256;
    assert Room(7) == 0x8000;
    assert Room(6) == 0x40_0000;
    assert Room(5) == 0x2000_0000;
    assert Room(4) == 0x10_0000_0000;
    assert Room(3) == 0x800_0000_0000;
    assert Room(2) == 0x4_0000_0000_0000;
    assert Room(1) == 0x200_0000_0000_0000;
  }

  /** Uvarint's loop from its i-th byte: the value of the remaining groups and how many bytes they
      take, or None where it returns n <= 0, that is, on a truncated or an overlong encoding. */
  function Scan(s: Bytes, i: nat): (r: Option<(nat, nat)>)
    requires i <= MAX_VARINT_LEN
    ensures r.Some? ==> r.value.0 < Room(i) && 1 <= r.value.1 <= |s| && r.value.1 <= MAX_VARINT_LEN - i
    decreases MAX_VARINT_LEN - i
  {
    if s == [] || i == MAX_VARINT_LEN then None
    else if s[0] < 128 then
      if i == MAX_VARINT_LEN - 1 && s[0] > 1 then None else Some((s[0], 1))
    else
      match Scan(s[1..], i + 1)
      case None => None
      case Some(t) => Some((s[0] - 128 + 128 * t.0, t.1 + 1))
  }

  /** A decoded value and what follows it. */
  function GetUvarint(s: Bytes): (r: Option<(u64, Bytes)>)
    ensures r.Some? ==> |r.value.1| < |s|
  {
    match Scan(s, 0)
    case None => None
    case Some(t) => RoomOfAll(); Some((t.0, s[t.1..]))
  }

  lemma {:induction false} ScanPut(x: u64, i: nat, rest: Bytes)
    requires i < MAX_VARINT_LEN && x < Room(i)
    ensures Scan(PutUvarint(x) + rest, i) == Some((x, |PutUvarint(x)|))
    ensures |PutUvarint(x)| <= MAX_VARINT_LEN - i
    decreases MAX_VARINT_LEN - i
  {
    var s := PutUvarint(x) + rest;
    if x >= 128 {
      ScanPut(x / 128, i + 1, rest);
      assert s[1..] == PutUvarint(x / 128) + rest;
    }
  }

  /** Every 64-bit value reads back, and not a byte past it is touched. */
  lemma UvarintRoundTrip(x: u64, rest: Bytes)
    ensures GetUvarint(PutUvarint(x) + rest) == Some((x, rest))
    ensures |PutUvarint(x)| <= MAX_VARINT_LEN
  {
    RoomOfAll();
    ScanPut(x, 0, rest);
    assert (PutUvarint(x) + rest)[|PutUvarint(x)|..] == rest;
  }

  lemma Groups(low: nat, high: nat)
    requires low < 128
    ensures (low + 128 * high) % 128 == low && (low + 128 * high) / 128 == high
  {
  }

  lemma {:induction false} ScanMinimal(s: Bytes, i: nat)
    requires i <= MAX_VARINT_LEN && Scan(s, i).Some? && Scan(s, i).value.0 < 0x1_0000_0000_0000_0000
    ensures var (x, n) := Scan(s, i).value; PutUvarint(x) == s[..n] <==> n == 1 || s[n - 1] != 0
    decreases MAX_VARINT_LEN - i
  {
    var (x, n) := Scan(s, i).value;
    if s[0] < 128 {
      assert s[..1] == [s[0]];
    } else {
      var (y, m) := Scan(s[1..], i + 1).value;
      ScanMinimal(s[1..], i + 1);
      Groups(s[0] - 128, y);
      assert s[..n] == [s[0]] + s[1..][..m];
      assert s[1..][m - 1] == s[n - 1];
      if y > 0 {
        assert PutUvarint(x) == [s[0]] + PutUvarint(y);
        if PutUvarint(x) == s[..n] { assert PutUvarint(y) == PutUvarint(x)[1..] && s[1..][..m] == s[..n][1..]; }
      }
    }
  }

  /** The converse holds exactly of minimal encodings: what was read is what would be written if and only if
      the last byte read is not a needless zero. */
  lemma MinimalReadsBack(s: Bytes)
    requires GetUvarint(s).Some?
    ensures var (x, rest) := GetUvarint(s).value;
            var n := |s| - |rest|;
            && 1 <= n <= MAX_VARINT_LEN
            && (s == PutUvarint(x) + rest <==> n == 1 || s[n - 1] != 0)
  {
    RoomOfAll();
    ScanMinimal(s, 0);
    var (x, n) := Scan(s, 0).value;
    assert s == s[..n] + s[n..];
    if s == PutUvarint(x) + s[n..] { assert PutUvarint(x) == s[..n]; }
  }

  /** For instance a two-byte zero. */
  lemma NonMinimalAccepted()
    ensures GetUvarint([128, 0]) == Some((0, [])) && PutUvarint(0) != [128, 0]
  {
    assert Scan([128, 0][1..], 1) == Some((0, 1));
  }

  // ---- two's complement ------------------------------------------------------------------

  /** uint64(x) */
  function AsUnsigned(x: i64): u64 {
    if x < 0 then x + 0x1_0000_0000_0000_0000 else x
  }

  /** int64(x) */
  function AsSigned(x: u64): i64 {
    if x < 0x8000_0000_0000_0000 then x else x - 0x1_0000_0000_0000_0000
  }

  /** uint32(x) */
  function Low32(x: u64): u32 {
    x % 0x1_0000_0000
  }

  /** AppendVarint: x << 1, complemented when x is negative. */
  function ZigZag(x: i64): u64 {
    if x < 0 then -2 * x - 1 else 2 * x
  }

  function UnZigZag(u: u64): i64 {
    if u % 2 == 1 then -(u / 2) - 1 else u / 2
  }

  function PutVarint(x: i64): (s: Bytes)
    ensures 1 <= |s|
  {
    PutUvarint(ZigZag(x))
  }

  function GetVarint(s: Bytes): (r: Option<(i64, Bytes)>)
    ensures r.Some? ==> |r.value.1| < |s|
  {
    match GetUvarint(s)
    case None => None
    case Some(t) => Some((UnZigZag(t.0), t.1))
  }

  lemma VarintRoundTrip(x: i64, rest: Bytes)
    ensures GetVarint(PutVarint(x) + rest) == Some((x, rest))
    ensures |PutVarint(x)| <= MAX_VARINT_LEN
  {
    UvarintRoundTrip(ZigZag(x), rest);
  }

  // ---- fixed-width little-endian ---------------------------------------------------------

  /** The low n bytes of x, as binary.LittleEndian lays them out. */
  function PutFixed(x: nat, n: nat): (s: Bytes)
    ensures |s| == n
  {
    if n == 0 then [] else [x % 256] + PutFixed(x / 256, n - 1)
  }

  function GetFixed(s: Bytes): nat {
    if s == [] then 0 else s[0] + 256 * GetFixed(s[1..])
  }

  function Pow256(n: nat): (r: nat)
    ensures r > 0
  {
    if n == 0 then 1 else 256 * Pow256(n - 1)
  }

  lemma {:induction false} FixedRoundTrip(x: nat, n: nat)
    requires x < Pow256(n)
    ensures GetFixed(PutFixed(x, n)) == x
  {
    if n > 0 {
      FixedRoundTrip(x / 256, n - 1);
      assert PutFixed(x, n)[1..] == PutFixed(x / 256, n - 1);
    }
  }

  lemma {:induction false} FixedBound(s: Bytes)
    ensures GetFixed(s) < Pow256(|s|)
  {
    if s != [] { FixedBound(s[1..]); }
  }

  lemma PowersOf256()
    ensures Pow256(4) == 0x1_0000_0000
    ensures Pow256(8) == 0x1_0000_0000_0000_0000
  {
    assert Pow256(2) == 0x1_0000;
    assert Pow256(4) == 0x1_0000_0000;
    assert Pow256(6) == 0x1_0000_0000_0000;
  }

  // ---- the bytes themselves --------------------------------------------------------------

  /** Seven bits a byte, least significant first. */
  function Base128(s: Bytes): nat {
    if s == [] then 0 else s[0] % 128 + 128 * Base128(s[1..])
  }

  /** The digits are the number's, and the high bit says whether another byte follows. */
  lemma {:induction false} UvarintDigits(x: u64)
    ensures var s := PutUvarint(x);
            Base128(s) == x && s[|s| - 1] < 128 && forall i | 0 <= i < |s| - 1 :: s[i] >= 128
  {
    if x >= 128 {
      var s, t := PutUvarint(x), PutUvarint(x / 128);
      UvarintDigits(x / 128);
      assert s[1..] == t && s[0] == x % 128 + 128;
    }
  }

  /** Signed numbers alternate: 0, -1, 1, -2, 2, ... */
  lemma VarintZigzags(x: i64)
    ensures PutVarint(x) == PutUvarint(if x >= 0 then 2 * x else -2 * x - 1)
  {
  }

  /** Fixed-width integers are little-endian. */
  lemma FixedSample()
    ensures PutFixed(0x0403_0201, 4) == [1, 2, 3, 4]
  {
    assert PutFixed(4, 1) == [4];
    assert PutFixed(0x0403, 2) == [3, 4];
    assert PutFixed(0x04_0302, 3) == [2, 3, 4];
  }

  lemma ShortUvarint(x: u64)
    ensures x < 128 ==> PutUvarint(x) == [x]
    ensures 128 <= x < 0x4000 ==> PutUvarint(x) == [x % 128 + 128, x / 128]
  {
  }
}
