/** The streaming writer (internal/store/writer.go). */
module FileWriter {
  import opened Bytes
  import opened Canon
  import opened ScanEntry
  import opened Varint
  import opened EntryCodec
  import opened BlockCodec
  import opened Layout
  import opened Container

  /** Any io.Writer: it may take part of a write and fail at any call. */
  class Sink {
    var data: Bytes
    var broke: bool

    constructor ()
      ensures data == [] && !broke
    {
      data, broke := [], false;
    }

    method Write(p: Bytes) returns (n: nat, ok: bool)
      modifies this
      ensures n <= |p| && data == old(data) + p[..n]
      ensures ok ==> n == |p|
      ensures broke == (old(broke) || !ok)
    {
      n :| 0 <= n <= |p|;
      ok := *;
      ok := ok && n == |p|;
      data := data + p[..n];
      broke := broke || !ok;
    }
  }

  datatype AddResult = Added | NoPath | OutOfOrder | AfterClose | IoError

  /** A writer holding these entries takes e. */
  predicate Accepts(held: seq<Entry>, e: Entry) {
    e.path != [] && (held == [] || Less(LastPath(held, []), e.path))
  }

  /** The entries a writer holds after being offered e. */
  function Accept(held: seq<Entry>, e: Entry): seq<Entry> {
    if Accepts(held, e) then held + [e] else held
  }

  /** The entries a writer holds after any sequence of calls, rejected ones included. */
  function AcceptAll(calls: seq<Entry>): seq<Entry> {
    if calls == [] then [] else Accept(AcceptAll(calls[..|calls| - 1]), calls[|calls| - 1])
  }

  /** A block as Add cuts it: over the target size only because of its last entry. */
  ghost predicate CutBlock(block: seq<Entry>) {
    block != [] && |Plain(block[..|block| - 1])| < DEFAULT_BLOCK_SIZE
  }

  ghost predicate AllCut(blocks: seq<seq<Entry>>) {
    forall b | b in blocks :: CutBlock(b)
  }

  /** At the target size or over it. */
  ghost predicate AllFull(blocks: seq<seq<Entry>>) {
    forall b | b in blocks :: |Plain(b)| >= DEFAULT_BLOCK_SIZE
  }

  /** Every block but the last. */
  ghost predicate FullButLast(blocks: seq<seq<Entry>>) {
    blocks != [] ==> AllFull(blocks[..|blocks| - 1])
  }

  ghost predicate Named(es: seq<Entry>) {
    forall e | e in es :: e.path != []
  }

  /** The bytes of the flushed blocks, and the index that locates them. */
  ghost predicate Sealed(z: Codecs, meta: Bytes, flushed: seq<seq<Entry>>, digest: Bytes, index: seq<IndexEntry>) {
    && digest == Header() + meta + Data(z, flushed)
    && index == IndexOf(z, flushed, HEADER_SIZE + |meta|)
    && AllCut(flushed)
  }

  /** The block being built. */
  ghost predicate Buffered(current: seq<Entry>, block: Bytes, first: Path, prev: Path, count: nat) {
    && block == Plain(current) && count == |current|
    && (current != [] ==> first == current[0].path && prev == LastPath(current, []) && CutBlock(current))
  }

  /** The counters, and the order of everything accepted. */
  ghost predicate Held(accepted: seq<Entry>, entries: nat, errors: nat, lastKey: Path, hasLast: bool) {
    && entries == |accepted| && errors == CountErrors(accepted)
    && lastKey == LastPath(accepted, []) && hasLast == (accepted != [])
    && Ordered(accepted) && Named(accepted)
  }

  ghost predicate Joined(accepted: seq<Entry>, flushed: seq<seq<Entry>>, current: seq<Entry>) {
    accepted == Flatten(flushed) + current
  }

  class Writer {
    const w: Sink
    const z: Codecs
    const meta: Bytes
    var digest: Bytes
    var off: nat
    var block: Bytes
    var blockFirst: Path
    var blockPrev: Path
    var blockCount: nat
    var index: seq<IndexEntry>
    var lastKey: Path
    var hasLast: bool
    var entries: nat
    var errors: nat
    var metaOffset: nat
    var metaLength: nat
    var dataOffset: nat
    var closed: bool
    var failed: bool

    ghost var accepted: seq<Entry>
    ghost var flushed: seq<seq<Entry>>
    ghost var current: seq<Entry>

    /** While no write has failed and the file is open. */
    ghost predicate Valid()
      reads this, w
    {
      && (!failed && !closed ==> Healthy() && w.data == digest && |block| < DEFAULT_BLOCK_SIZE && AllFull(flushed))
      && (failed ==> w.broke)
    }

    ghost predicate Healthy()
      reads this
    {
      && metaOffset == HEADER_SIZE && metaLength == |meta| && dataOffset == HEADER_SIZE + |meta|
      && off == |digest|
      && Sealed(z, meta, flushed, digest, index)
      && Buffered(current, block, blockFirst, blockPrev, blockCount)
      && Held(accepted, entries, errors, lastKey, hasLast)
      && Joined(accepted, flushed, current)
    }

    constructor (w: Sink, z: Codecs, meta: Bytes)
      requires w.data == []
      modifies w
      ensures Valid() && this.w == w && this.z == z && this.meta == meta
      ensures !closed && accepted == [] && flushed == []
      ensures !failed ==> w.data == Header() + meta
      ensures failed ==> w.broke
    {
      this.w, this.z, this.meta := w, z, meta;
      digest, off, block, blockFirst, blockPrev, blockCount := [], 0, [], [], [], 0;
      index, lastKey, hasLast, entries, errors := [], [], false, 0, 0;
      metaOffset, metaLength, dataOffset := 0, 0, 0;
      closed, failed := false, false;
      accepted, flushed, current := [], [], [];
      new;
      hide Header, Sealed, Buffered, Held, Joined, AllFull;
      NothingYet(z, meta);
      Begin();
    }

    /** The two sections that come first. */
    method Begin()
      requires !failed && digest == [] && off == 0 && w.data == []
      modifies this`digest, this`off, this`failed, this`metaOffset, this`metaLength, this`dataOffset, w
      ensures failed ==> w.broke
      ensures !failed ==>
                && metaOffset == HEADER_SIZE && metaLength == |meta| && dataOffset == off == HEADER_SIZE + |meta|
                && digest == Header() + meta && w.data == digest
    {
      hide Header;
      var ok := Emit(Header());
      if ok {
        metaOffset := off;
        ok := Emit(meta);
        if ok {
          metaLength := |meta|;
          dataOffset := off;
          assert [] + Header() + meta == Header() + meta;
        }
      }
    }

    /** Writer.write: to the file and the digest, with the first failure latched. */
    method Emit(p: Bytes) returns (ok: bool)
      modifies this`digest, this`off, this`failed, w
      ensures ok == !failed
      ensures old(failed) ==> failed && w.data == old(w.data) && digest == old(digest) && off == old(off)
      ensures ok ==> w.data == old(w.data) + p && digest == old(digest) + p && off == old(off) + |p|
      ensures old(w.broke) || (failed && !old(failed)) ==> w.broke
    {
      if failed { return false; }
      var n, wrote := w.Write(p);
      off := off + n;
      digest := digest + p[..n];
      if !wrote { failed := true; }
      ok := !failed;
      if ok { assert p[..n] == p; }
    }

    /** An entry is appended if it has a path after the last one; otherwise the call leaves no trace. */
    method Add(e: Entry) returns (r: AddResult)
      requires Valid()
      modifies this, w
      ensures Valid() && closed == old(closed)
      ensures old(failed) ==> r == IoError && unchanged(this) && unchanged(w)
      ensures !old(failed) && old(closed) ==> r == AfterClose && unchanged(this) && unchanged(w)
      ensures !old(failed) && !old(closed) && !failed ==> accepted == Accept(old(accepted), e)
      ensures !old(failed) && !old(closed) ==>
                && (r == NoPath <==> e.path == [])
                && (r == OutOfOrder <==> e.path != [] && !Accepts(old(accepted), e))
                && (r == IoError <==> failed)
                && r != AfterClose
      ensures r == NoPath || r == OutOfOrder ==> unchanged(this) && unchanged(w)
    {
      hide Sealed, Buffered, Joined, Held, Accepts, Less, Plain;
      if failed { return IoError; }
      if closed { return AfterClose; }
      AcceptsByLastKey(accepted, entries, errors, lastKey, hasLast, e);
      if e.path == [] { return NoPath; }
      if hasLast {
        var c := CompareKey(lastKey, e.path);
        CompareDecides(lastKey, e.path);
        if c >= 0 { return OutOfOrder; }
      }
      Append(e);
      r := Added;
      if |block| >= DEFAULT_BLOCK_SIZE {
        BlockIsPlain(current, block, blockFirst, blockPrev, blockCount);
        var ok := FlushBlock();
        if !ok { r := IoError; }
      }
    }

    method Append(e: Entry)
      requires Valid() && !failed && !closed
      requires e.path != [] && (hasLast ==> Less(lastKey, e.path))
      modifies this
      ensures Healthy() && !failed && !closed && digest == old(digest)
      ensures accepted == old(accepted) + [e] && flushed == old(flushed)
    {
      hide Sealed, Buffered, Held, Joined, Less;
      JoinedSnoc(accepted, flushed, current, e);
      Buffer(e);
      Tally(e);
    }

    /** The running counters and the last key. */
    method Tally(e: Entry)
      requires Held(accepted, entries, errors, lastKey, hasLast)
      requires e.path != [] && (hasLast ==> Less(lastKey, e.path))
      modifies this`lastKey, this`hasLast, this`entries, this`errors, this`accepted
      ensures Held(accepted, entries, errors, lastKey, hasLast) && accepted == old(accepted) + [e]
    {
      hide Held, Less;
      HeldSnoc(accepted, entries, errors, lastKey, hasLast, e);
      lastKey := e.path;
      hasLast := true;
      entries := entries + 1;
      if e.err != [] { errors := errors + 1; }
      accepted := accepted + [e];
    }

    /** The entry's bytes, at the end of the current block. */
    method Buffer(e: Entry)
      requires Buffered(current, block, blockFirst, blockPrev, blockCount) && |block| < DEFAULT_BLOCK_SIZE
      modifies this`block, this`blockFirst, this`blockPrev, this`blockCount, this`current
      ensures Buffered(current, block, blockFirst, blockPrev, blockCount) && current == old(current) + [e]
    {
      hide Encode, EncodeAll;
      EncodeAllSnoc(current, e, []);
      assert (current + [e])[..|current|] == current;
      if blockCount == 0 {
        blockFirst := e.path;
        blockPrev := [];
      }
      block := AppendEntry(block, e, blockPrev);
      blockPrev := e.path;
      blockCount := blockCount + 1;
      current := current + [e];
    }

    method FlushBlock() returns (ok: bool)
      requires Healthy() && !failed && w.data == digest
      modifies this, w
      ensures ok == !failed && closed == old(closed)
      ensures ok ==> Healthy() && w.data == digest && block == [] && current == [] && accepted == old(accepted)
      ensures ok ==> flushed == old(flushed) + if old(current) == [] then [] else [old(current)]
      ensures old(w.broke) || !ok ==> w.broke
    {
      hide Sealed, Buffered, Held, Joined, Frame, Plain;
      BlockIsEmpty(current, block, blockFirst, blockPrev, blockCount);
      if blockCount == 0 {
        return true;
      }
      var offset := off;
      ok := EmitFrame(block);
      if !ok { return; }
      Retire(offset);
    }

    /** The block just written enters the index; a new one begins. */
    method Retire(offset: nat)
      requires Buffered(current, block, blockFirst, blockPrev, blockCount) && blockCount > 0
      requires Joined(accepted, flushed, current) && offset <= off && off - offset == |Frame(z, block)|
      requires offset + |Frame(z, block)| == |digest|
      requires |Frame(z, block)| <= |digest| && Sealed(z, meta, flushed, digest[..offset], index)
      requires digest == digest[..offset] + Frame(z, block)
      modifies this`index, this`block, this`blockCount, this`flushed, this`current
      ensures Sealed(z, meta, flushed, digest, index) && block == [] && current == []
      ensures flushed == old(flushed) + [old(current)]
      ensures Buffered(current, block, blockFirst, blockPrev, blockCount) && Joined(accepted, flushed, current)
    {
      hide Sealed, Joined, Frame, Plain;
      SealedSnoc(z, meta, flushed, current, digest[..offset], index);
      JoinedFlush(accepted, flushed, current);
      PlainOfNone();
      index := index + [IndexEntry(blockFirst, offset, off - offset)];
      block := [];
      blockCount := 0;
      flushed := flushed + [current];
      current := [];
    }

    /** Both lengths, then the compressed bytes. */
    method EmitFrame(plain: Bytes) returns (ok: bool)
      requires !failed && off == |digest| && w.data == digest
      modifies this`digest, this`off, this`failed, w
      ensures ok == !failed
      ensures ok ==> digest == old(digest) + Frame(z, plain) && off == |digest| && w.data == digest
      ensures old(w.broke) || !ok ==> w.broke
    {
      hide PutFixed;
      var scratch := z.compress(plain);
      var header := PutFixed(|plain| % 0x1_0000_0000, 4) + PutFixed(|scratch| % 0x1_0000_0000, 4);
      ok := Emit(header);
      if !ok { return; }
      ok := Emit(scratch);
      Assoc(old(digest), header, scratch);
    }

    /** The first Close seals the file: on success it is exactly the layout of the accepted entries. */
    method Close() returns (ok: bool)
      requires Valid()
      modifies this, w
      ensures Valid() && closed
      ensures old(closed) ==> ok && unchanged(this) && unchanged(w)
      ensures !old(closed) && old(failed) ==> !ok
      ensures !ok ==> w.broke
      ensures !old(closed) && ok ==>
                && accepted == old(accepted) && Flatten(flushed) == accepted
                && w.data == File(z, meta, flushed)
                && Ordered(accepted) && Named(accepted)
                && AllCut(flushed) && FullButLast(flushed)
    {
      hide Header, Plain, Data, Flatten, CountErrors, IndexOf, IndexPlain, Frame, Fields, AllCut, Named, Ordered,
          Buffered, AllFull, FullButLast;
      if closed { return true; }
      closed := true;
      if failed { return false; }
      ghost var full, last := flushed, current;
      ok := FlushBlock();
      if !ok { return; }
      LastMayBeShort(full, last);
      JoinedAll(accepted, flushed);
      hide FooterOf, Joined;
      var dataLength := off - dataOffset;
      var indexOffset := off;
      ok := WriteIndex();
      if !ok { return; }
      var indexLength := off - indexOffset;
      var footer := Fields([metaOffset, metaLength, dataOffset, dataLength, indexOffset, indexLength,
                            entries, errors, |index|]);
      FooterFacts(z, meta, flushed, footer);
      ok := Emit(footer);
      if !ok { return; }
      assert digest == Body(z, meta, flushed);
      var sum := z.sha(digest);
      var n;
      n, ok := w.Write(sum);
      if !ok { return; }
      n, ok := w.Write(FOOTER_MAGIC);
    }

    method WriteIndex() returns (ok: bool)
      requires !failed && off == |digest| && w.data == digest
      modifies this`digest, this`off, this`failed, w
      ensures ok == !failed
      ensures ok ==> digest == old(digest) + Frame(z, IndexPlain(index)) && off == |digest| && w.data == digest
      ensures old(w.broke) || !ok ==> w.broke
    {
      hide PutUvarint, PutFixed, Record, Header, Data, IndexOf, Healthy;
      var buf := PutUvarint(U64(|index|));
      var i := 0;
      assert index[..0] == [] && buf == buf + Records([]);
      while i < |index|
        invariant 0 <= i <= |index|
        invariant buf == PutUvarint(U64(|index|)) + Records(index[..i])
        modifies {}
      {
        var ie := index[i];
        buf := AppendRecord(buf, ie);
        Assoc(PutUvarint(U64(|index|)), Records(index[..i]), Record(ie, []));
        assert index[..i + 1] == index[..i] + [ie];
        RecordsSnoc(index[..i], ie);
        i := i + 1;
      }
      assert index[..i] == index;
      ok := EmitFrame(buf);
    }

    static method AppendRecord(dst: Bytes, ie: IndexEntry) returns (buf: Bytes)
      ensures buf == dst + Record(ie, [])
    {
      hide PutUvarint, WithString;
      buf := AppendString(dst, ie.firstKey);
      buf := buf + PutUvarint(U64(ie.offset));
      buf := buf + PutUvarint(U64(ie.size));
      ghost var tail := PutUvarint(U64(ie.offset)) + (PutUvarint(U64(ie.size)) + []);
      StringAppend(ie.firstKey, [], tail);
      assert [] + tail == tail;
    }
  }

  /** NewWriter: null when the header or the metadata could not be written. */
  method NewWriter(w: Sink, z: Codecs, meta: Bytes) returns (fw: Writer?)
    requires w.data == []
    modifies w
    ensures fw != null ==>
              && fresh(fw) && fw.Valid() && fw.w == w && fw.z == z && fw.meta == meta
              && !fw.failed && !fw.closed && fw.accepted == [] && w.data == Header() + meta
    ensures fw == null ==> w.broke
  {
    hide Header, Sealed, Buffered, Held, Joined;
    var made := new Writer(w, z, meta);
    fw := if made.failed then null else made;
  }

  lemma HeldSnoc(accepted: seq<Entry>, entries: nat, errors: nat, lastKey: Path, hasLast: bool, e: Entry)
    requires Held(accepted, entries, errors, lastKey, hasLast)
    requires e.path != [] && (hasLast ==> Less(lastKey, e.path))
    ensures Held(accepted + [e], entries + 1, if e.err != [] then errors + 1 else errors, e.path, true)
  {
    OrderedSnoc(accepted, e);
    hide Ordered;
    assert (accepted + [e])[..|accepted|] == accepted;
  }

  lemma JoinedSnoc(accepted: seq<Entry>, flushed: seq<seq<Entry>>, current: seq<Entry>, e: Entry)
    requires Joined(accepted, flushed, current)
    ensures Joined(accepted + [e], flushed, current + [e])
  {
  }

  lemma JoinedFlush(accepted: seq<Entry>, flushed: seq<seq<Entry>>, current: seq<Entry>)
    requires Joined(accepted, flushed, current)
    ensures Joined(accepted, flushed + [current], []) && accepted == Flatten(flushed + [current])
  {
    assert (flushed + [current])[..|flushed|] == flushed;
  }

  lemma SealedSnoc(z: Codecs, meta: Bytes, flushed: seq<seq<Entry>>, current: seq<Entry>, digest: Bytes,
                   index: seq<IndexEntry>)
    requires Sealed(z, meta, flushed, digest, index) && CutBlock(current)
    ensures Sealed(z, meta, flushed + [current], digest + Frame(z, Plain(current)),
                   index + [IndexEntry(current[0].path, |digest|, |Frame(z, Plain(current))|)])
  {
    hide Plain, Frame, Header;
    assert (flushed + [current])[..|flushed|] == flushed;
    Assoc(Header() + meta, Data(z, flushed), Frame(z, Plain(current)));
  }

  lemma JoinedAll(accepted: seq<Entry>, flushed: seq<seq<Entry>>)
    requires Joined(accepted, flushed, [])
    ensures accepted == Flatten(flushed)
  {
  }

  lemma FooterFacts(z: Codecs, meta: Bytes, flushed: seq<seq<Entry>>, footer: Bytes)
    requires footer == Fields([HEADER_SIZE, |meta|, HEADER_SIZE + |meta|, |Data(z, flushed)|,
                               HEADER_SIZE + |meta| + |Data(z, flushed)|,
                               |Frame(z, IndexPlain(IndexOf(z, flushed, HEADER_SIZE + |meta|)))|,
                               |Flatten(flushed)|, CountErrors(Flatten(flushed)), |flushed|])
    ensures footer == FooterOf(z, meta, flushed)
  {
    hide Fields, Data, Frame, IndexOf, IndexPlain, Flatten, CountErrors;
  }

  lemma NothingYet(z: Codecs, meta: Bytes)
    ensures Sealed(z, meta, [], Header() + meta, []) && Buffered([], [], [], [], 0)
    ensures Held([], 0, 0, [], false) && Joined([], [], []) && AllFull([])
  {
    hide Header;
    assert Header() + meta + [] == Header() + meta;
  }

  lemma BlockIsEmpty(current: seq<Entry>, block: Bytes, first: Path, prev: Path, count: nat)
    requires Buffered(current, block, first, prev, count)
    ensures count == 0 <==> current == []
    ensures count == 0 ==> block == []
  {
  }

  lemma BlockIsPlain(current: seq<Entry>, block: Bytes, first: Path, prev: Path, count: nat)
    requires Buffered(current, block, first, prev, count)
    ensures |Plain(current)| == |block|
  {
  }

  lemma LastMayBeShort(full: seq<seq<Entry>>, last: seq<Entry>)
    requires AllFull(full)
    ensures FullButLast(full + if last == [] then [] else [last])
  {
    hide Plain;
    assert (full + [last])[..|full|] == full;
    assert full + [] == full;
  }

  lemma AcceptsByLastKey(accepted: seq<Entry>, entries: nat, errors: nat, lastKey: Path, hasLast: bool, e: Entry)
    requires Held(accepted, entries, errors, lastKey, hasLast)
    ensures Accepts(accepted, e) <==> e.path != [] && (hasLast ==> Less(lastKey, e.path))
  {
    hide Less, Ordered;
  }

  lemma PlainOfNone()
    ensures Plain([]) == []
  {
  }

  lemma {:induction false} RecordsSnoc(ix: seq<IndexEntry>, ie: IndexEntry)
    ensures Records(ix + [ie]) == Records(ix) + Record(ie, [])
  {
    hide PutUvarint, WithString;
    if ix == [] {
      assert [] + [ie] == [ie];
      assert Records([ie][1..]) == [];
    } else {
      assert (ix + [ie])[1..] == ix[1..] + [ie];
      RecordsSnoc(ix[1..], ie);
      RecordAppend(ix[0], Records(ix[1..]), Record(ie, []));
    }
  }

  lemma RecordAppend(ie: IndexEntry, after: Bytes, rest: Bytes)
    ensures Record(ie, after + rest) == Record(ie, after) + rest
  {
    hide PutUvarint, WithString;
    var o, s := PutUvarint(U64(ie.offset)), PutUvarint(U64(ie.size));
    assert o + (s + (after + rest)) == (o + (s + after)) + rest;
    StringAppend(ie.firstKey, o + (s + after), rest);
  }

  lemma OrderedSnoc(es: seq<Entry>, e: Entry)
    requires Ordered(es) && (es != [] ==> Less(LastPath(es, []), e.path))
    ensures Ordered(es + [e])
  {
    var ps := Paths(es + [e]);
    forall i, j | 0 <= i < j < |ps| ensures Less(ps[i], ps[j]) {
      if j < |es| {
        assert Less(Paths(es)[i], Paths(es)[j]);
      } else if i < |es| - 1 {
        assert Less(Paths(es)[i], Paths(es)[|es| - 1]);
        LessTransitive(es[i].path, es[|es| - 1].path, e.path);
      }
    }
  }
}
