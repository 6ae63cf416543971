/** Blocks of front-coded entries: the encoder of internal/store/writer.go and the decoder of
    internal/store/decode.go, which must survive bytes nobody wrote. */
module BlockCodec {
  import opened Bytes
  import opened Canon
  import opened ScanEntry
  import opened Varint
  import opened EntryCodec

  // ---- specification ---------------------------------------------------------------------

  function EncodeAll(es: seq<Entry>, prev: Path): Bytes {
    if es == [] then [] else Encode(es[0], prev) + EncodeAll(es[1..], es[0].path)
  }

  function LastPath(es: seq<Entry>, prev: Path): Path {
    if es == [] then prev else es[|es| - 1].path
  }

  /** What repeated calls of next return: entries, then EOF (no fault) or the first fault. */
  datatype Run = Run(entries: seq<Entry>, fault: Option<Fault>)

  function Prepend(e: Entry, r: Run): Run {
    Run([e] + r.entries, r.fault)
  }

  function DecodeAll(s: Bytes, prev: Path): Run
    decreases |s|
  {
    if s == [] then Run([], None)
    else
      match Decode(s, prev)
      case Bad(w) => Run([], Some(w))
      case Ok(e, rest) => Prepend(e, DecodeAll(rest, e.path))
  }

  /** Non-empty keys, each after the one before it. */
  predicate Chain(es: seq<Entry>, prev: Path) {
    es == [] || (es[0].path != [] && (prev != [] ==> Less(prev, es[0].path)) && Chain(es[1..], es[0].path))
  }

  predicate AllAddressable(es: seq<Entry>, prev: Path) {
    es == [] || (Addressable(es[0], prev) && AllAddressable(es[1..], es[0].path))
  }

  /** How many leading entries the decoder accepts. */
  function FitCount(es: seq<Entry>, prev: Path): (k: nat)
    ensures k <= |es|
  {
    if es == [] || !Fits(es[0], prev) then 0 else 1 + FitCount(es[1..], es[0].path)
  }

  function StoredAll(es: seq<Entry>): (r: seq<Entry>)
    ensures |r| == |es|
    ensures forall i | 0 <= i < |es| :: r[i] == Stored(es[i])
  {
    seq(|es|, i requires 0 <= i < |es| => Stored(es[i]))
  }

  lemma EncodeAllSnoc(es: seq<Entry>, e: Entry, prev: Path)
    ensures EncodeAll(es + [e], prev) == EncodeAll(es, prev) + Encode(e, LastPath(es, prev))
  {
    hide Encode;
    if es == [] {
      assert [] + [e] == [e];
    } else {
      assert (es + [e])[1..] == es[1..] + [e];
      EncodeAllSnoc(es[1..], e, es[0].path);
    }
  }

  /** Any strictly increasing run of entries decodes to itself, over every combination of optional
      fields, up to the first entry with a string the decoder refuses. */
  lemma {:induction false} BlockRoundTrip(es: seq<Entry>, prev: Path)
    requires Chain(es, prev) && AllAddressable(es, prev)
    ensures var k := FitCount(es, prev);
            DecodeAll(EncodeAll(es, prev), prev)
            == Run(StoredAll(es[..k]), if k == |es| then None else Some(TooLong))
  {
    hide Encode, Decode, Fits, Stored, Addressable;
    if es != [] {
      var e, tail := es[0], es[1..];
      var rest := EncodeAll(tail, e.path);
      EntryRoundTrip(e, prev, rest);
      EncodeNotEmpty(e, prev);
      BlockRoundTrip(tail, e.path);
      if Fits(e, prev) {
        StoredKeepsPath(e);
        var k := FitCount(tail, e.path);
        assert es[..k + 1] == [e] + tail[..k];
        assert StoredAll(es[..k + 1]) == [Stored(e)] + StoredAll(tail[..k]);
      }
    }
  }

  lemma StoredKeepsPath(e: Entry)
    ensures Stored(e).path == e.path
  {
  }

  lemma EncodeNotEmpty(e: Entry, prev: Path)
    ensures Encode(e, prev) != []
  {
    hide PutUvarint, WithString;
  }

  /** On arbitrary bytes: at least ten bytes an entry, non-empty keys, strictly increasing. */
  lemma {:induction false} DecodeAllTotal(s: Bytes, prev: Path)
    ensures var r := DecodeAll(s, prev);
            && 10 * |r.entries| <= |s|
            && Chain(r.entries, prev)
    decreases |s|
  {
    hide Decode;
    if s != [] && Decode(s, prev).Ok? {
      var d := Decode(s, prev);
      DecodeAllTotal(d.rest, d.value.path);
      assert DecodeAll(s, prev).entries[1..] == DecodeAll(d.rest, d.value.path).entries;
    }
  }

  lemma {:induction false} ChainIsOrdered(es: seq<Entry>, prev: Path)
    requires Chain(es, prev)
    ensures Ordered(es)
    ensures forall e | e in es :: e.path != [] && (prev != [] ==> Less(prev, e.path))
  {
    if es != [] {
      ChainIsOrdered(es[1..], es[0].path);
      forall e | e in es[1..] && prev != [] ensures Less(prev, e.path) {
        LessTransitive(prev, es[0].path, e.path);
      }
      var ps, qs := Paths(es), Paths(es[1..]);
      forall i, j | 0 <= i < j < |ps| ensures Less(ps[i], ps[j]) {
        assert ps[j] == qs[j - 1] && es[j] in es[1..];
        if i > 0 { assert ps[i] == qs[i - 1]; }
      }
    }
  }

  lemma {:induction false} OrderedIsChain(es: seq<Entry>, prev: Path)
    requires Ordered(es) && forall e | e in es :: e.path != []
    requires es != [] && prev != [] ==> Less(prev, es[0].path)
    ensures Chain(es, prev)
  {
    if es != [] {
      var ps, qs := Paths(es), Paths(es[1..]);
      assert forall i | 0 <= i < |qs| :: qs[i] == ps[i + 1];
      if |es| > 1 { assert Less(ps[0], ps[1]); }
      OrderedIsChain(es[1..], es[0].path);
    }
  }

  // ---- encoder ---------------------------------------------------------------------------

  method CountShared(a: Bytes, b: Bytes) returns (i: nat)
    ensures i == SharedPrefix(a, b)
  {
    var n := if |a| < |b| then |a| else |b|;
    i := 0;
    while i < n && a[i] == b[i]
      invariant i <= n
      invariant a[..i] == b[..i]
    {
      i := i + 1;
    }
    SharedPrefixUnique(a, b, i);
  }

  method AppendEntry(dst: Bytes, e: Entry, prev: Path) returns (out: Bytes)
    ensures out == dst + Encode(e, prev)
  {
    hide PutUvarint, WithString, WithAttributes;
    var shared := CountShared(prev, e.path);
    var suffix := e.path[shared..];
    out := dst + PutUvarint(Length(prev[..shared]));
    out := AppendString(out, suffix);
    out := AppendAttributes(out, e);
    StringAppend(suffix, [], WithAttributes(e, []));
    assert [] + WithAttributes(e, []) == WithAttributes(e, []);
  }

  method AppendAttributes(dst: Bytes, e: Entry) returns (out: Bytes)
    ensures out == dst + WithAttributes(e, [])
  {
    hide PutUvarint, PutVarint, WithHash, EntryFlags;
    out := dst + [e.typ];
    out := out + [EntryFlags(e)];
    out := out + PutUvarint(e.mode);
    out := out + PutUvarint(e.uid);
    out := out + PutUvarint(e.gid);
    out := out + PutUvarint(AsUnsigned(e.size));
    out := out + PutVarint(e.mtime);
    out := AppendOptional(out, e);
  }

  method AppendOptional(dst: Bytes, e: Entry) returns (out: Bytes)
    ensures out == dst + WithHash(e, [])
  {
    hide WithString, WithIds;
    out := dst;
    if e.hashed {
      out := out + e.hash;
    }
    if e.link != [] {
      out := AppendString(out, e.link);
      StringAppend(e.link, [], WithIds(e, []));
      assert [] + WithIds(e, []) == WithIds(e, []);
    }
    out := AppendIds(out, e);
  }

  method AppendIds(dst: Bytes, e: Entry) returns (out: Bytes)
    ensures out == dst + WithIds(e, [])
  {
    hide PutUvarint, WithString;
    out := dst;
    if HasIds(e) {
      out := out + PutUvarint(e.dev);
      out := out + PutUvarint(e.ino);
      out := out + PutUvarint(e.nlink);
    }
    if e.err != [] {
      out := AppendString(out, e.err);
    }
  }

  method AppendString(dst: Bytes, s: Bytes) returns (out: Bytes)
    ensures out == dst + WithString(s, [])
  {
    hide PutUvarint;
    out := dst + PutUvarint(Length(s));
    out := out + s;
  }

  // ---- decoder ---------------------------------------------------------------------------

  /** Accessors that check bounds and latch the first fault. */
  class ByteReader {
    var buf: Bytes
    var pos: nat
    var err: Option<Fault>

    constructor (buf: Bytes)
      ensures Valid() && this.buf == buf && pos == 0 && err == None
    {
      this.buf, pos, err := buf, 0, None;
    }

    ghost predicate Valid()
      reads this
    {
      pos <= |buf|
    }

    ghost function Rest(): Bytes
      reads this
      requires Valid()
    {
      buf[pos..]
    }

    /** The reader stands where p leaves it: after the value, or stopped on the fault. */
    ghost predicate At<T>(p: Parsed<T>, before: nat)
      reads this
      requires Valid()
    {
      match p
      case Ok(_, rest) => err == None && Rest() == rest
      case Bad(w) => err == Some(w) && before <= pos
    }

    ghost predicate Same(b: Bytes, p: nat, e: Option<Fault>)
      reads this
    {
      buf == b && pos == p && err == e
    }

    method Fail(why: Fault)
      requires Valid()
      modifies this
      ensures Valid() && buf == old(buf) && pos == old(pos)
      ensures err == if old(err).Some? then old(err) else Some(why)
    {
      if err == None { err := Some(why); }
    }

    method Uvarint() returns (v: u64)
      requires Valid()
      modifies this
      ensures Valid() && buf == old(buf)
      ensures old(err).Some? ==> v == 0 && Same(old(buf), old(pos), old(err))
      ensures old(err).None? ==> At(ReadUvarint(old(Rest())), old(pos))
      ensures err.None? ==> v == ReadUvarint(old(Rest())).value
      ensures err.Some? ==> v == 0
    {
      if err.Some? { return 0; }
      match Scan(buf[pos..], 0)
      case None =>
        Fail(BadVarint);
        v := 0;
      case Some(t) =>
        RoomOfAll();
        pos := pos + t.1;
        v := t.0;
    }

    method SignedVarint() returns (v: i64)
      requires Valid()
      modifies this
      ensures Valid() && buf == old(buf)
      ensures old(err).Some? ==> v == 0 && Same(old(buf), old(pos), old(err))
      ensures old(err).None? ==> At(ReadVarint(old(Rest())), old(pos))
      ensures err.None? ==> v == ReadVarint(old(Rest())).value
      ensures err.Some? ==> v == 0
    {
      if err.Some? { return 0; }
      match Scan(buf[pos..], 0)
      case None =>
        Fail(BadVarint);
        v := 0;
      case Some(t) =>
        RoomOfAll();
        pos := pos + t.1;
        v := UnZigZag(t.0);
    }

    method U8() returns (v: byte)
      requires Valid()
      modifies this
      ensures Valid() && buf == old(buf)
      ensures old(err).Some? ==> v == 0 && Same(old(buf), old(pos), old(err))
      ensures old(err).None? ==> At(ReadByte(old(Rest())), old(pos))
      ensures err.None? ==> v == ReadByte(old(Rest())).value
      ensures err.Some? ==> v == 0
    {
      if err.Some? { return 0; }
      if pos >= |buf| {
        Fail(UnexpectedEnd);
        return 0;
      }
      v := buf[pos];
      pos := pos + 1;
    }

    method Take(n: int) returns (v: Bytes)
      requires Valid()
      modifies this
      ensures Valid() && buf == old(buf)
      ensures old(err).Some? ==> v == [] && Same(old(buf), old(pos), old(err))
      ensures old(err).None? ==> At(ReadBytes(n, old(Rest())), old(pos))
      ensures err.None? ==> v == ReadBytes(n, old(Rest())).value
      ensures err.Some? ==> v == []
    {
      if err.Some? { return []; }
      if n < 0 || n > |buf| - pos {
        Fail(PastEnd);
        return [];
      }
      v := buf[pos..pos + n];
      pos := pos + n;
    }

    method Str(max: nat) returns (v: Bytes)
      requires Valid()
      modifies this
      ensures Valid() && buf == old(buf)
      ensures old(err).Some? ==> v == [] && Same(old(buf), old(pos), old(err))
      ensures old(err).None? ==> At(ReadString(max, old(Rest())), old(pos))
      ensures err.None? ==> v == ReadString(max, old(Rest())).value
      ensures err.Some? ==> v == []
    {
      hide ReadUvarint;
      var n := Uvarint();
      if err.Some? { return []; }
      if n > max {
        Fail(TooLong);
        return [];
      }
      v := Take(n);
    }
  }

  datatype Outcome = Got(e: Entry) | Eof | Failed(why: Fault)

  /** One decompressed block, decoded entry by entry into the same Entry. */
  class BlockDecoder {
    const br: ByteReader
    var prev: Path
    var e: Entry

    constructor ()
      ensures Valid() && fresh(br) && br.Same([], 0, None) && prev == []
    {
      br := new ByteReader([]);
      prev, e := [], BLANK;
    }

    ghost predicate Valid()
      reads this, br
    {
      br.Valid()
    }

    /** Everything this decoder has still to return. */
    ghost function Ahead(): Run
      reads this, br
      requires Valid()
    {
      if br.err.Some? then Run([], br.err) else DecodeAll(br.Rest(), prev)
    }

    method Reset(buf: Bytes)
      requires Valid()
      modifies this, br
      ensures Valid() && br.Same(buf, 0, None) && prev == []
      ensures Ahead() == DecodeAll(buf, [])
    {
      br.buf, br.pos, br.err := buf, 0, None;
      prev := [];
      assert buf[0..] == buf;
    }

    /** The next entry; EOF at the end of the block, for ever; a fault, which every later call
        returns again. */
    method Next() returns (r: Outcome)
      requires Valid()
      modifies this, br
      ensures Valid() && br.buf == old(br.buf)
      ensures old(Ahead().entries) != [] ==>
                r == Got(old(Ahead()).entries[0]) && e == r.e
                && Ahead() == Run(old(Ahead()).entries[1..], old(Ahead()).fault)
      ensures old(Ahead().entries) == [] ==>
                Ahead() == old(Ahead())
                && r == match old(Ahead()).fault { case None => Eof case Some(w) => Failed(w) }
    {
      hide ReadAttributes, ReadTail, ReadUvarint, ReadString, Less;
      if br.err.Some? { return Failed(br.err.value); }
      if br.pos >= |br.buf| { return Eof; }
      ghost var s := br.Rest();
      ghost var key := ReadKey(s, prev);

      var shared := br.Uvarint();
      if br.err.None? && shared > |prev| {
        br.Fail(SharedTooLong);
      }
      var suffix := br.Str(MAX_STRING_SIZE);
      if br.err.Some? { return Failed(br.err.value); }
      var path := prev[..shared] + suffix;
      if path == [] {
        br.Fail(EmptyPath);
        return Failed(br.err.value);
      }
      if prev != [] {
        var c := CompareKey(prev, path);
        if c >= 0 {
          br.Fail(KeyOrder);
          return Failed(br.err.value);
        }
      }
      assert key == Ok(path, br.Rest());
      hide ReadKey, KeyFrom;

      var a := Required(path);
      Optional(path, a);
      if br.err.Some? { return Failed(br.err.value); }
      prev := path;
      r := Got(e);
      assert Ahead() == DecodeAll(br.Rest(), e.path);
    }

    /** The fields every entry has. */
    method Required(path: Path) returns (a: Attributes)
      requires Valid() && br.err.None?
      modifies this, br
      ensures Valid() && br.buf == old(br.buf) && prev == old(prev)
      ensures br.At(ReadAttributes(old(br.Rest())), old(br.pos))
      ensures br.err.None? ==> a == ReadAttributes(old(br.Rest())).value
      ensures br.err.None? ==>
                e == BLANK.(path := path, typ := a.typ, mode := a.mode, uid := a.uid, gid := a.gid,
                            size := a.size, mtime := a.mtime)
    {
      hide ReadUvarint, ReadVarint;
      hide ReadOwner, ReadByte;
      e := BLANK.(path := path);
      var typ := br.U8();
      e := e.(typ := typ);
      var flags := br.U8();
      Owner();
      var size := br.Uvarint();
      e := e.(size := AsSigned(size));
      var mtime := br.SignedVarint();
      e := e.(mtime := mtime);
      a := Attributes(typ, flags, e.mode, e.uid, e.gid, e.size, mtime);
    }

    method Owner()
      requires Valid()
      modifies this, br
      ensures Valid() && br.buf == old(br.buf) && prev == old(prev)
      ensures old(br.err).Some? ==> br.Same(old(br.buf), old(br.pos), old(br.err))
      ensures old(br.err).None? ==> br.At(ReadOwner(old(br.Rest())), old(br.pos))
      ensures br.err.None? ==>
                var o := ReadOwner(old(br.Rest())).value;
                e == old(e).(mode := o.0, uid := o.1, gid := o.2)
    {
      hide ReadUvarint;
      var mode := br.Uvarint();
      e := e.(mode := Low32(mode));
      var uid := br.Uvarint();
      e := e.(uid := Low32(uid));
      var gid := br.Uvarint();
      e := e.(gid := Low32(gid));
    }

    /** The fields the flag byte announces. */
    method Optional(path: Path, a: Attributes)
      requires Valid()
      requires br.err.None? ==>
                 e == BLANK.(path := path, typ := a.typ, mode := a.mode, uid := a.uid, gid := a.gid,
                             size := a.size, mtime := a.mtime)
      modifies this, br
      ensures Valid() && br.buf == old(br.buf) && prev == old(prev)
      ensures old(br.err).Some? ==> br.Same(old(br.buf), old(br.pos), old(br.err))
      ensures old(br.err).None? ==> br.At(ReadTail(path, a, old(br.Rest())), old(br.pos))
      ensures br.err.None? ==> e == ReadTail(path, a, old(br.Rest())).value
    {
      hide HasFlag, ReadHash, ReadIds, ReadOptionalString;
      var sum := OptionalHash(a.flags);
      e := e.(hash := sum, hashed := HasFlag(a.flags, FLAG_HASHED) && br.err == None);
      e := e.(partial := HasFlag(a.flags, FLAG_PARTIAL));
      var link := OptionalString(a.flags, FLAG_LINK);
      e := e.(link := link);
      var ids := OptionalIds(a.flags);
      e := e.(dev := ids.0, ino := ids.1, nlink := ids.2);
      var msg := OptionalString(a.flags, FLAG_ERROR);
      e := e.(err := msg);
    }

    method OptionalHash(flags: byte) returns (sum: Digest)
      requires Valid()
      modifies br
      ensures Valid() && br.buf == old(br.buf)
      ensures old(br.err).Some? ==> br.Same(old(br.buf), old(br.pos), old(br.err))
      ensures old(br.err).None? ==> br.At(ReadHash(flags, old(br.Rest())), old(br.pos))
      ensures br.err.None? ==> sum == ReadHash(flags, old(br.Rest())).value
    {
      sum := NO_HASH;
      if HasFlag(flags, FLAG_HASHED) {
        var taken := br.Take(32);
        if |taken| == 32 { sum := taken; }
      }
    }

    method OptionalString(flags: byte, bit: nat) returns (v: Bytes)
      requires Valid() && bit > 0
      modifies br
      ensures Valid() && br.buf == old(br.buf)
      ensures old(br.err).Some? ==> br.Same(old(br.buf), old(br.pos), old(br.err))
      ensures old(br.err).None? ==> br.At(ReadOptionalString(flags, bit, old(br.Rest())), old(br.pos))
      ensures br.err.None? ==> v == ReadOptionalString(flags, bit, old(br.Rest())).value
    {
      hide ReadString;
      v := [];
      if HasFlag(flags, bit) {
        v := br.Str(MAX_STRING_SIZE);
      }
    }

    method OptionalIds(flags: byte) returns (ids: (u64, u64, u32))
      requires Valid()
      modifies br
      ensures Valid() && br.buf == old(br.buf)
      ensures old(br.err).Some? ==> br.Same(old(br.buf), old(br.pos), old(br.err))
      ensures old(br.err).None? ==> br.At(ReadIds(flags, old(br.Rest())), old(br.pos))
      ensures br.err.None? ==> ids == ReadIds(flags, old(br.Rest())).value
    {
      hide ReadUvarint;
      ids := (0, 0, 0);
      if HasFlag(flags, FLAG_HARDLINK) {
        var dev := br.Uvarint();
        var ino := br.Uvarint();
        var nlink := br.Uvarint();
        ids := (dev, ino, Low32(nlink));
      }
    }
  }
}
