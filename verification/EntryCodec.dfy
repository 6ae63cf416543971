/** The front-coded form of one entry (internal/store/writer.go, internal/store/decode.go):
    what is written, what is read back, and the round trip between the two. */
module EntryCodec {
  import opened Bytes
  import opened Canon
  import opened ScanEntry
  import opened Varint

  const FLAG_HASHED: nat := 1
  const FLAG_PARTIAL: nat := 2
  const FLAG_LINK: nat := 4
  const FLAG_HARDLINK: nat := 8
  const FLAG_ERROR: nat := 16

  const MAX_STRING_SIZE: nat := 65536

  predicate HasFlag(flags: byte, bit: nat)
    requires bit > 0
  {
    flags / bit % 2 == 1
  }

  predicate HasIds(e: Entry) {
    e.dev != 0 || e.ino != 0 || e.nlink != 0
  }

  function EntryFlags(e: Entry): (f: byte)
    ensures HasFlag(f, FLAG_HASHED) == e.hashed
    ensures HasFlag(f, FLAG_PARTIAL) == e.partial
    ensures HasFlag(f, FLAG_LINK) == (e.link != [])
    ensures HasFlag(f, FLAG_HARDLINK) == HasIds(e)
    ensures HasFlag(f, FLAG_ERROR) == (e.err != [])
  {
    (if e.hashed then FLAG_HASHED else 0) + (if e.partial then FLAG_PARTIAL else 0)
    + (if e.link != [] then FLAG_LINK else 0) + (if HasIds(e) then FLAG_HARDLINK else 0)
    + (if e.err != [] then FLAG_ERROR else 0)
  }

  /** uint64(len(s)) */
  function Length(s: Bytes): u64 {
    |s| % 0x1_0000_0000_0000_0000
  }

  // ---- encoding: each group of fields followed by what comes after it ---------------------

  function WithString(s: Bytes, rest: Bytes): Bytes {
    PutUvarint(Length(s)) + (s + rest)
  }

  function WithError(e: Entry, rest: Bytes): Bytes {
    if e.err != [] then WithString(e.err, rest) else rest
  }

  function WithIds(e: Entry, rest: Bytes): Bytes {
    if HasIds(e) then PutUvarint(e.dev) + (PutUvarint(e.ino) + (PutUvarint(e.nlink) + WithError(e, rest)))
    else WithError(e, rest)
  }

  function WithLink(e: Entry, rest: Bytes): Bytes {
    if e.link != [] then WithString(e.link, WithIds(e, rest)) else WithIds(e, rest)
  }

  function WithHash(e: Entry, rest: Bytes): Bytes {
    if e.hashed then e.hash + WithLink(e, rest) else WithLink(e, rest)
  }

  function WithAttributes(e: Entry, rest: Bytes): Bytes {
    [e.typ] + ([EntryFlags(e)] + (PutUvarint(e.mode) + (PutUvarint(e.uid) + (PutUvarint(e.gid)
    + (PutUvarint(AsUnsigned(e.size)) + (PutVarint(e.mtime) + WithHash(e, rest)))))))
  }

  /** One entry, front-coded against the previous key of its block, then rest. */
  function EncodeThen(e: Entry, prev: Path, rest: Bytes): Bytes {
    PutUvarint(Length(prev[..SharedPrefix(prev, e.path)]))
    + WithString(e.path[SharedPrefix(prev, e.path)..], WithAttributes(e, rest))
  }

  function Encode(e: Entry, prev: Path): Bytes {
    EncodeThen(e, prev, [])
  }

  lemma EncodeThenIsAppend(e: Entry, prev: Path, rest: Bytes)
    ensures EncodeThen(e, prev, rest) == Encode(e, prev) + rest
  {
    hide WithAttributes, PutUvarint;
    AttributesAppend(e, rest);
    StringAppend(e.path[SharedPrefix(prev, e.path)..], WithAttributes(e, []), rest);
    hide WithString;
  }

  lemma StringAppend(s: Bytes, after: Bytes, rest: Bytes)
    ensures WithString(s, after + rest) == WithString(s, after) + rest
  {
    hide PutUvarint;
    assert s + (after + rest) == (s + after) + rest;
  }

  lemma ErrorAppend(e: Entry, rest: Bytes)
    ensures WithError(e, rest) == WithError(e, []) + rest
  {
    hide WithString;
    StringAppend(e.err, [], rest);
    assert [] + rest == rest;
  }

  lemma IdsAppend(e: Entry, rest: Bytes)
    ensures WithIds(e, rest) == WithIds(e, []) + rest
  {
    hide PutUvarint, WithError, HasIds;
    ErrorAppend(e, rest);
    var d, i, n, t := PutUvarint(e.dev), PutUvarint(e.ino), PutUvarint(e.nlink), WithError(e, []);
    assert d + (i + (n + (t + rest))) == (d + (i + (n + t))) + rest;
  }

  lemma LinkAppend(e: Entry, rest: Bytes)
    ensures WithLink(e, rest) == WithLink(e, []) + rest
  {
    hide WithString, WithIds;
    IdsAppend(e, rest);
    StringAppend(e.link, WithIds(e, []), rest);
  }

  lemma TailAppend(e: Entry, rest: Bytes)
    ensures WithHash(e, rest) == WithHash(e, []) + rest
  {
    hide WithLink;
    LinkAppend(e, rest);
    assert e.hash + (WithLink(e, []) + rest) == (e.hash + WithLink(e, [])) + rest;
  }

  lemma AttributesAppend(e: Entry, rest: Bytes)
    ensures WithAttributes(e, rest) == WithAttributes(e, []) + rest
  {
    TailAppend(e, rest);
    hide PutUvarint, PutVarint, WithHash, EntryFlags;
  }

  // ---- decoding --------------------------------------------------------------------------

  datatype Fault =
    | BadVarint
    | UnexpectedEnd
    | PastEnd
    | TooLong
    | SharedTooLong
    | EmptyPath
    | KeyOrder

  /** A value and the bytes after it, or the first fault. */
  datatype Parsed<+T> = Ok(value: T, rest: Bytes) | Bad(why: Fault) {
    predicate IsFailure() { Bad? }

    function PropagateFailure<U>(): Parsed<U>
      requires IsFailure()
    {
      Bad(why)
    }

    function Extract(): (T, Bytes)
      requires !IsFailure()
    {
      (value, rest)
    }
  }

  function ReadUvarint(s: Bytes): (r: Parsed<u64>)
    ensures r.Ok? ==> |r.rest| < |s|
  {
    match GetUvarint(s) case None => Bad(BadVarint) case Some(t) => Ok(t.0, t.1)
  }

  function ReadVarint(s: Bytes): (r: Parsed<i64>)
    ensures r.Ok? ==> |r.rest| < |s|
  {
    match GetVarint(s) case None => Bad(BadVarint) case Some(t) => Ok(t.0, t.1)
  }

  function ReadByte(s: Bytes): (r: Parsed<byte>)
    ensures r.Ok? ==> |r.rest| < |s|
  {
    if s == [] then Bad(UnexpectedEnd) else Ok(s[0], s[1..])
  }

  function ReadBytes(n: int, s: Bytes): (r: Parsed<Bytes>)
    ensures r.Ok? ==> |r.value| == n && |s| == |r.rest| + n
  {
    if n < 0 || n > |s| then Bad(PastEnd) else Ok(s[..n], s[n..])
  }

  function ReadString(max: nat, s: Bytes): (r: Parsed<Bytes>)
    ensures r.Ok? ==> |r.rest| + |r.value| < |s| && |r.value| <= max
  {
    var (n, s1) :- ReadUvarint(s);
    if n > max then Bad(TooLong) else ReadBytes(n, s1)
  }

  /** The key of the entry at s, where prev is the previous key of the block. */
  function ReadKey(s: Bytes, prev: Path): (r: Parsed<Path>)
    ensures r.Ok? ==> r.value != [] && (prev != [] ==> Less(prev, r.value)) && |r.rest| + 3 <= |s|
  {
    var (shared, s1) :- ReadUvarint(s);
    if shared > |prev| then Bad(SharedTooLong)
    else
      var (suffix, s2) :- ReadString(MAX_STRING_SIZE, s1);
      KeyFrom(prev, shared, suffix, s2)
  }

  function KeyFrom(prev: Path, shared: nat, suffix: Bytes, rest: Bytes): (r: Parsed<Path>)
    requires shared <= |prev|
    ensures r.Ok? ==> r.value != [] && (prev != [] ==> Less(prev, r.value))
    ensures r.Ok? ==> r.rest == rest && suffix != []
  {
    if prev[..shared] + suffix == [] then Bad(EmptyPath)
    else if prev != [] && Compare(prev, prev[..shared] + suffix) >= 0 then Bad(KeyOrder)
    else
      SuffixNotEmpty(prev, shared, suffix);
      Ok(prev[..shared] + suffix, rest)
  }

  lemma SuffixNotEmpty(prev: Path, shared: nat, suffix: Bytes)
    requires shared <= |prev| && prev[..shared] + suffix != []
    requires prev != [] ==> Less(prev, prev[..shared] + suffix)
    ensures suffix != []
  {
    if suffix == [] {
      assert prev[..shared] + suffix == prev[..shared];
      SharedPrefixUnique(prev, prev[..shared], shared);
    }
  }

  datatype Attributes = Attributes(typ: byte, flags: byte, mode: u32, uid: u32, gid: u32, size: i64, mtime: i64)

  function ReadOwner(s: Bytes): (r: Parsed<(u32, u32, u32)>)
    ensures r.Ok? ==> |r.rest| + 3 <= |s|
  {
    var (mode, s1) :- ReadUvarint(s);
    var (uid, s2) :- ReadUvarint(s1);
    var (gid, s3) :- ReadUvarint(s2);
    Ok((Low32(mode), Low32(uid), Low32(gid)), s3)
  }

  function ReadAttributes(s: Bytes): (r: Parsed<Attributes>)
    ensures r.Ok? ==> |r.rest| + 7 <= |s|
  {
    var (typ, s1) :- ReadByte(s);
    var (flags, s2) :- ReadByte(s1);
    var (o, s3) :- ReadOwner(s2);
    var (size, s4) :- ReadUvarint(s3);
    var (mtime, s5) :- ReadVarint(s4);
    Ok(Attributes(typ, flags, o.0, o.1, o.2, AsSigned(size), mtime), s5)
  }

  function ReadHash(flags: byte, s: Bytes): (r: Parsed<Digest>)
    ensures r.Ok? ==> |r.rest| <= |s|
  {
    if !HasFlag(flags, FLAG_HASHED) then Ok(NO_HASH, s)
    else if |s| < 32 then Bad(PastEnd)
    else Ok(s[..32], s[32..])
  }

  function ReadOptionalString(flags: byte, bit: nat, s: Bytes): (r: Parsed<Bytes>)
    requires bit > 0
    ensures r.Ok? ==> |r.rest| <= |s|
  {
    if HasFlag(flags, bit) then ReadString(MAX_STRING_SIZE, s) else Ok([], s)
  }

  function ReadIds(flags: byte, s: Bytes): (r: Parsed<(u64, u64, u32)>)
    ensures r.Ok? ==> |r.rest| <= |s|
  {
    if !HasFlag(flags, FLAG_HARDLINK) then Ok((0, 0, 0), s)
    else
      var (dev, s1) :- ReadUvarint(s);
      var (ino, s2) :- ReadUvarint(s1);
      var (nlink, s3) :- ReadUvarint(s2);
      Ok((dev, ino, Low32(nlink)), s3)
  }

  /** The fields after the attributes, which the flag byte announces. */
  function ReadTail(path: Path, a: Attributes, s: Bytes): (r: Parsed<Entry>)
    ensures r.Ok? ==> r.value.path == path && |r.rest| <= |s|
  {
    var (digest, s1) :- ReadHash(a.flags, s);
    var (link, s2) :- ReadOptionalString(a.flags, FLAG_LINK, s1);
    var (ids, s3) :- ReadIds(a.flags, s2);
    var (err, s4) :- ReadOptionalString(a.flags, FLAG_ERROR, s3);
    Ok(Entry(path, a.typ, a.mode, a.uid, a.gid, a.size, a.mtime, digest,
             HasFlag(a.flags, FLAG_HASHED), HasFlag(a.flags, FLAG_PARTIAL), link, ids.0, ids.1, ids.2, err), s4)
  }

  /** On any bytes at all: a fault, or an entry whose key follows prev, at least ten bytes long. */
  function Decode(s: Bytes, prev: Path): (r: Parsed<Entry>)
    ensures r.Ok? ==> r.value.path != [] && (prev != [] ==> Less(prev, r.value.path))
    ensures r.Ok? ==> |r.rest| + 10 <= |s|
  {
    var (path, s1) :- ReadKey(s, prev);
    var (a, s2) :- ReadAttributes(s1);
    ReadTail(path, a, s2)
  }

  // ---- round trip ------------------------------------------------------------------------

  /** What survives: the digest of an entry that was never hashed is not written. */
  function Stored(e: Entry): Entry {
    if e.hashed then e else e.(hash := NO_HASH)
  }

  /** The strings the decoder accepts. The limit is on the part of the path after the shared prefix. */
  predicate Fits(e: Entry, prev: Path) {
    && |e.path| - SharedPrefix(prev, e.path) <= MAX_STRING_SIZE
    && |e.link| <= MAX_STRING_SIZE
    && |e.err| <= MAX_STRING_SIZE
  }

  /** Lengths a Go string can have. */
  predicate Addressable(e: Entry, prev: Path) {
    |e.path| < 0x8000_0000_0000_0000 && |e.link| < 0x8000_0000_0000_0000
    && |e.err| < 0x8000_0000_0000_0000 && |prev| < 0x8000_0000_0000_0000
  }

  lemma ReadPut(x: u64, rest: Bytes)
    ensures ReadUvarint(PutUvarint(x) + rest) == Ok(x, rest)
  {
    UvarintRoundTrip(x, rest);
  }

  lemma ReadPutSigned(x: i64, rest: Bytes)
    ensures ReadVarint(PutVarint(x) + rest) == Ok(x, rest)
  {
    VarintRoundTrip(x, rest);
  }

  lemma ReadWithString(v: Bytes, rest: Bytes)
    requires |v| < 0x8000_0000_0000_0000
    ensures ReadString(MAX_STRING_SIZE, WithString(v, rest))
         == if |v| <= MAX_STRING_SIZE then Ok(v, rest) else Bad(TooLong)
  {
    hide ReadUvarint, PutUvarint;
    ReadPut(Length(v), v + rest);
    assert (v + rest)[..|v|] == v && (v + rest)[|v|..] == rest;
  }

  lemma ReadWithAttributes(e: Entry, rest: Bytes)
    ensures ReadAttributes(WithAttributes(e, rest))
         == Ok(Attributes(e.typ, EntryFlags(e), e.mode, e.uid, e.gid, e.size, e.mtime), WithHash(e, rest))
  {
    hide ReadUvarint, ReadVarint, PutUvarint, PutVarint;
    var s6 := WithHash(e, rest);
    var s5 := PutVarint(e.mtime) + s6;
    var s4 := PutUvarint(AsUnsigned(e.size)) + s5;
    var s3 := PutUvarint(e.gid) + s4;
    var s2 := PutUvarint(e.uid) + s3;
    var s1 := PutUvarint(e.mode) + s2;
    ReadPutSigned(e.mtime, s6);
    ReadPut(AsUnsigned(e.size), s5);
    ReadPut(e.gid, s4);
    ReadPut(e.uid, s3);
    ReadPut(e.mode, s2);
    assert ([EntryFlags(e)] + s1)[1..] == s1;
    assert WithAttributes(e, rest)[1..] == [EntryFlags(e)] + s1;
  }

  lemma ReadWithIds(e: Entry, rest: Bytes)
    ensures ReadIds(EntryFlags(e), WithIds(e, rest)) == Ok((e.dev, e.ino, e.nlink), WithError(e, rest))
  {
    hide ReadUvarint, PutUvarint;
    if HasIds(e) {
      var s2 := PutUvarint(e.nlink) + WithError(e, rest);
      ReadPut(e.dev, PutUvarint(e.ino) + s2);
      ReadPut(e.ino, s2);
      ReadPut(e.nlink, WithError(e, rest));
    }
  }

  lemma ReadWithTail(e: Entry, rest: Bytes)
    requires |e.link| < 0x8000_0000_0000_0000 && |e.err| < 0x8000_0000_0000_0000
    ensures ReadTail(e.path, Attributes(e.typ, EntryFlags(e), e.mode, e.uid, e.gid, e.size, e.mtime), WithHash(e, rest))
         == if |e.link| <= MAX_STRING_SIZE && |e.err| <= MAX_STRING_SIZE then Ok(Stored(e), rest) else Bad(TooLong)
  {
    if e.hashed {
      assert (e.hash + WithLink(e, rest))[..32] == e.hash && (e.hash + WithLink(e, rest))[32..] == WithLink(e, rest);
    }
    ReadWithString(e.link, WithIds(e, rest));
    ReadWithIds(e, rest);
    ReadWithString(e.err, rest);
  }

  /** Decoding what was encoded returns the stored entry and leaves exactly the bytes that follow,
      if and only if the strings fit; when they do not, the decoder refuses what the writer wrote. */
  lemma EntryRoundTrip(e: Entry, prev: Path, rest: Bytes)
    requires e.path != [] && (prev != [] ==> Less(prev, e.path)) && Addressable(e, prev)
    ensures Decode(Encode(e, prev) + rest, prev) == if Fits(e, prev) then Ok(Stored(e), rest) else Bad(TooLong)
  {
    hide ReadUvarint, PutUvarint, ReadString, WithString, ReadAttributes, WithAttributes, ReadTail, WithHash;
    EncodeThenIsAppend(e, prev, rest);
    var shared := SharedPrefix(prev, e.path);
    var suffix := e.path[shared..];
    ReadPut(Length(prev[..shared]), WithString(suffix, WithAttributes(e, rest)));
    ReadWithString(suffix, WithAttributes(e, rest));
    assert prev[..shared] + suffix == e.path;
    ReadWithAttributes(e, rest);
    ReadWithTail(e, rest);
  }

  // ---- size ------------------------------------------------------------------------------

  /** An entry that fits takes at most this many bytes. */
  const MAX_ENTRY_SIZE: nat := 3 * MAX_STRING_SIZE + 200

  lemma UvarintSize(x: u64)
    ensures |PutUvarint(x)| <= MAX_VARINT_LEN
  {
    UvarintRoundTrip(x, []);
  }

  lemma EntrySize(e: Entry, prev: Path)
    requires Fits(e, prev)
    ensures |Encode(e, prev)| <= MAX_ENTRY_SIZE
  {
    var shared := SharedPrefix(prev, e.path);
    UvarintSize(Length(prev[..shared]));
    UvarintSize(Length(e.path[shared..]));
    UvarintSize(Length(e.link));
    UvarintSize(Length(e.err));
    UvarintSize(e.mode);
    UvarintSize(e.uid);
    UvarintSize(e.gid);
    UvarintSize(AsUnsigned(e.size));
    UvarintSize(ZigZag(e.mtime));
    UvarintSize(e.dev);
    UvarintSize(e.ino);
    UvarintSize(e.nlink);
    assert |WithError(e, [])| <= 10 + |e.err|;
    assert |WithIds(e, [])| <= 30 + |WithError(e, [])|;
    assert |WithLink(e, [])| <= 10 + |e.link| + |WithIds(e, [])|;
    assert |WithHash(e, [])| <= 32 + |WithLink(e, [])|;
  }
}
