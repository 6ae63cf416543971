/** The stored form of one entry and of one index record, byte by byte (internal/store/writer.go). */
module FormatSample {
  import opened Bytes
  import opened ScanEntry
  import opened Varint
  import opened EntryCodec
  import opened Layout

  const SAMPLE: Entry :=
    BLANK.(path := [47, 97, 47, 98], typ := TYPE_FILE, mode := 420, uid := 1, gid := 2, size := 300, mtime := -1,
           hash := NO_HASH, hashed := true, link := [120], dev := 5, ino := 6, nlink := 7, err := [33])

  /** Shared prefix, suffix, type, flags, mode, uid, gid, size, mtime, digest, link, device, inode, links, error. */
  lemma SampleBytes()
    ensures Encode(SAMPLE, [47, 97, 47, 97])
         == [3, 1, 98, 102, 29, 164, 3, 1, 2, 172, 2, 1] + NO_HASH + [1, 120, 5, 6, 7, 1, 33]
  {
    SampleKey();
    SampleTail();
    SampleFlags();
    SampleNumbers();
    hide PutUvarint, PutVarint, SharedPrefix, WithLink, EntryFlags;
    SampleAttributes(SAMPLE);
    hide WithAttributes;
  }

  lemma SampleKey()
    ensures var prev := [47, 97, 47, 97];
            var k := SharedPrefix(prev, SAMPLE.path);
            k == 3 && prev[..k] == [47, 97, 47] && SAMPLE.path[k..] == [98]
  {
    var prev, path := [47, 97, 47, 97], SAMPLE.path;
    assert prev[..3] == path[..3] && prev[3] != path[3];
    SharedPrefixUnique(prev, path, 3);
  }

  lemma SampleFlags()
    ensures EntryFlags(SAMPLE) == 29
  {
  }

  lemma SampleTail()
    ensures WithLink(SAMPLE, []) == [1, 120, 5, 6, 7, 1, 33]
  {
    SampleNumbers();
    hide PutUvarint;
    assert WithError(SAMPLE, []) == [1, 33];
    assert WithIds(SAMPLE, []) == [5, 6, 7, 1, 33];
  }

  lemma SampleNumbers()
    ensures PutUvarint(1) == [1] && PutUvarint(2) == [2] && PutUvarint(3) == [3]
    ensures PutUvarint(5) == [5] && PutUvarint(6) == [6] && PutUvarint(7) == [7]
    ensures PutUvarint(420) == [164, 3] && PutUvarint(300) == [172, 2] && PutVarint(-1) == [1]
  {
    ShortUvarint(420);
    ShortUvarint(300);
    hide PutUvarint;
    ShortUvarint(1);
    ShortUvarint(2);
    ShortUvarint(3);
    ShortUvarint(5);
    ShortUvarint(6);
    ShortUvarint(7);
    VarintZigzags(-1);
  }

  lemma SampleAttributes(e: Entry)
    requires e == SAMPLE && EntryFlags(e) == 29 && WithLink(e, []) == [1, 120, 5, 6, 7, 1, 33]
    ensures WithAttributes(e, []) == [102, 29, 164, 3, 1, 2, 172, 2, 1] + NO_HASH + [1, 120, 5, 6, 7, 1, 33]
  {
    hide WithLink, EntryFlags, PutUvarint, PutVarint;
    SampleNumbers();
    assert e.mode == 420 && e.uid == 1 && e.gid == 2 && AsUnsigned(e.size) == 300 && e.mtime == -1;
    var tail := NO_HASH + [1, 120, 5, 6, 7, 1, 33];
    assert WithHash(e, []) == tail;
    assert [102] + ([29] + ([164, 3] + ([1] + ([2] + ([172, 2] + ([1] + tail))))))
        == [102, 29, 164, 3, 1, 2, 172, 2, 1] + tail;
  }

  /** First key, offset, size. */
  lemma RecordSample()
    ensures Record(IndexEntry([97], 32, 300), []) == [1, 97, 32, 172, 2]
  {
    SampleNumbers();
    ShortUvarint(32);
    hide PutUvarint;
  }
}
