# Verification of osfp's scan, store and compare core

osfp takes a fingerprint of a filesystem and later compares the live system with it. Both are streams of
entries in one canonical path order: a concurrent walk produces the live stream, a block-compressed file
holds the recorded one, and a streaming merge join reports the differences. This project models that core
in Dafny and proves what its parts promise each other, and what they promise together.

## Layout

| file | what it holds |
|---|---|
| Canon.dfy | the path order, components, subtrees |
| Entry.dfy | one filesystem object |
| Varint.dfy, EntryCodec.dfy, BlockCodec.dfy, FormatSample.dfy | integers, one entry, front-coded blocks; the byte reader and the block decoder; samples of the format |
| Layout.dfy, Container.dfy | sections, frames, index, footer; what a reader makes of what a writer wrote |
| Writer.dfy, Reader.dfy, WholeFile.dfy | the writer, the cursor, seek, opening; the whole-file round trip |
| Classify.dfy, MapDiff.dfy, Joiner.dfy | the decision table, the difference of two maps, the joiner |
| Walk.dfy, Stats.dfy | finite trees and the sequential walk, the counters |
| RingWalk.dfy, RingAgree.dfy, RingFaithful.dfy, Walker.dfy | the walk whose cells are recycled, when it is the same for two numbers of cells, when it is the sequential one, and the walker in place |
| WalkMeaning.dfy | what a walk and a run say of the tree: which directories are entered, what each entry holds |
| Pipeline.dfy | the concurrent scan as a transition system, and the invariant of its runs |
| PipelineSafety.dfy, PipelineLiveness.dfy | refinement of the walk with recycled cells, order, termination |
| StaleDevice.dfy | a tree of which a scan with one job loses an entry and one with two jobs does not |
| Exclude.dfy | the perimeter |
| Prune.dfy, CompareModes.dfy, Summarize.dfy | what not entering unknown directories costs; the counting walk |
| CompareRun.dfy, RingCompare.dfy, EndToEnd.dfy | exit decision, self-comparison, what late reads do to a comparison, and the parts composed |

`dafny verify dfyconfig.toml` checks the whole project.

## How it is modelled

- A filesystem is a finite tree of stat results, link targets, listings (a listing may be partial and come
  with an error) and names that vanish before they are stat'ed. Listings are sorted by name, free of
  duplicates and of '/'. The root is an absolute, cleaned, non-empty path.
- zstd, SHA-256, JSON, glob matching, path cleaning, ignore rules and the filesystem type of a mount are
  parameters. Decompression is assumed to undo compression with bounded growth.
- The concurrent scan is a transition system. A step is one channel operation, one WaitGroup operation, one
  callback or one file hashed; a channel operation is enabled when it can proceed, a select between two
  ready alternatives takes either, and every interleaving is a run. The consumer's, walker's and workers'
  histories are part of the state for the statements only.
- Methods of the source that update fields are methods of classes here, each tied to a function of the old
  state; the properties are proved of the functions.

## Where the code and its documentation disagree

- The comment before `ring.commit` in internal/scan/walk.go says the cell must not be read any more, but the
  loop below it reads `e.Dev` for every child. By then the cell may hold another entry. Which one does not
  depend on the interleaving: the two channels hand the 4*Jobs cells round in one fixed order, so the walk is
  that of `RingWalk`, in every run (`WalkIsRingWalk`). It is the sequential walk exactly when `RingScanIsScan`
  says so, which covers every case in which mounts are refused but no recycled cell misleads a decision that
  shows. `OneJobLosesAnEntry` is a tree of which every scan with one job that returns nil loses an entry; with
  two jobs none does. So what is found may depend on the number of jobs: `JobsDoNotMatter` has the exact
  condition for two numbers, `EveryJobsSame` for all of them, `WholeComparison` for what a comparison reports.
- internal/canon/key.go excludes NUL bytes; the order is strict without that.
- A path is limited to 64 KiB by the reader only. What counts is the part of a path that differs from the one
  before it in its block, and every link and error (`EntryRoundTrip`, `LongLaterPathAccepted`). The first path
  of a block is stored whole, in the block and in the index: over the limit, it is written without complaint,
  and the file can then not be opened at all (`ReadsBackExactly`).
- After a block that cannot be read, the cursor's next call goes on with the following block; a caller that
  retries skips a block without notice. `Cursor.Next` says so.
- A second `Close` after a failed first one reports success; `Writer.Close` says so.
- Not listing unknown directories is meant to lose nothing but what lies below them. It also loses the listing
  error of such a directory, which deep mode reports and the JSON report prints: `ModesAgreeOnErrors` is the
  exact condition. Even with those errors set aside a ?E may become a !T: `ModesAgree` is the exact condition,
  `ModesCanDiffer` an instance.
- The summary of an added directory counts what sits under it with the options of the scan, but its walk starts
  there: it always enters the directory and counts depth from it, so it also counts what a refused mount or the
  depth limit keeps deep mode from. `SummaryIsDeep` is the exact condition for the two to cover the same.
- The table in internal/diff/classify.go gives the line on size and time to entries hashed on neither side; the code
  takes it when they were not hashed on both. `ClassifyMeans` follows the code.
- Automatic exclusions are meant to leave out the paths osfp uses itself. A path with a glob character is
  compiled as a glob, which need not match the path; `AutoLineLeavesOut` is the exact condition.

## Model

| member | source | states |
|---|---|---|
| `Canon.CompareKey` | internal/canon/key.go:34-61 | the one-pass loop computes the recursive byte order in which '/' ranks below every other byte and a prefix comes first |
| `Canon.StrictTotalOrder` | internal/canon/key.go:34-61 | irreflexive, transitive and total on all byte strings, NUL included, so no precondition on paths is needed |
| `Canon.CompareFlip` | internal/canon/key.go:41-50 | swapping the arguments negates the result |
| `Canon.CompareIsComponentwise` | internal/canon/key.go:8-25 | the byte order is the lexicographic order of the lists of '/'-separated components, shorter list first |
| `Canon.SubtreeIsInterval` | internal/canon/key.go:20-25 | anything that sorts between a directory and a path below it is itself below it |
| `Canon.SiblingSubtreesOrdered` | internal/canon/key.go:20-25 | whole subtrees of two siblings sort as the sibling names do, although neither name need be a prefix of the other |
| `Canon.PrefixComesFirst` | internal/canon/key.go:52-56 | a path sorts before every proper extension of it |
| `Varint.UvarintRoundTrip` | internal/store/writer.go:247-256 | reading what AppendUvarint wrote gives the number and exactly the bytes after it, for all 64-bit values, in at most ten bytes |
| `Varint.UvarintDigits` | internal/store/writer.go:247-256 | the bytes are the base-128 digits of the number, least significant first, and the high bit says whether another byte follows |
| `Varint.MinimalReadsBack` | internal/store/decode.go:33-44 | the converse, exactly: the bytes of a number that was read are the ones AppendUvarint writes for it if and only if they are one byte or do not end in a zero byte |
| `Varint.NonMinimalAccepted` | internal/store/decode.go:33-44 | an instance where they are not: a two-byte encoding of zero is read like the one-byte one |
| `Varint.VarintRoundTrip` | internal/store/writer.go:257-258 | the zigzag encoding round-trips over all 64-bit signed values |
| `Varint.VarintZigzags` | internal/store/writer.go:257-258 | signed numbers are numbered 0, -1, 1, -2, 2 and so on, and written as that |
| `Varint.FixedRoundTrip` | internal/store/writer.go:154-155 | little-endian fixed-width integers round-trip below 256 to the width |
| `EntryCodec.EntryFlags` | internal/store/writer.go:279-297 | each of the five flag bits is set exactly when its field is present |
| `EntryCodec.Decode` | internal/store/decode.go:112-174 | on any bytes: a fault, or an entry with a non-empty key after the previous one that took at least ten bytes |
| `EntryCodec.EntryRoundTrip` | internal/store/writer.go:243-277 | decoding an encoded entry gives it back and leaves exactly the following bytes if and only if what its path adds to the previous one, its link and its error are within 64 KiB each; otherwise the decoder refuses what the writer wrote |
| `FormatSample.SampleBytes` | internal/store/writer.go:243-277 | an entry with every optional field present, byte by byte |
| `FormatSample.RecordSample` | internal/store/writer.go:219-237 | an index record, byte by byte: first key, offset, size |
| `EntryCodec.EntrySize` | internal/store/format.go:61-67 | an entry whose strings fit is encoded in at most three strings plus 200 bytes |
| `BlockCodec.CountShared` | internal/store/writer.go:299-307 | the counting loop returns the length of the longest common prefix |
| `BlockCodec.AppendEntry` | internal/store/writer.go:243-277 | the growing buffer receives exactly the encoding of the entry against the previous key |
| `BlockCodec.BlockRoundTrip` | internal/store/decode.go:112-174 | a strictly increasing run of entries, all flag combinations included, decodes to itself up to the first entry with an oversized string, and to the end when there is none |
| `BlockCodec.DecodeAllTotal` | internal/store/decode.go:112-174 | on arbitrary bytes: at most one entry per ten bytes, non-empty strictly increasing keys, then the end or one fault |
| `BlockCodec.ChainIsOrdered` | internal/store/decode.go:129-140 | the decoder's check of neighbours makes the whole block strictly increasing |
| `BlockCodec.ByteReader.Fail` | internal/store/decode.go:25-29 | only the first fault is kept |
| `BlockCodec.ByteReader.Uvarint` | internal/store/decode.go:33-44 | latched: reads like the value-level parser, or leaves position and the first fault untouched |
| `BlockCodec.ByteReader.SignedVarint` | internal/store/decode.go:46-57 | the same for zigzag integers |
| `BlockCodec.ByteReader.U8` | internal/store/decode.go:59-70 | one byte, or a fault at the end of the buffer |
| `BlockCodec.ByteReader.Take` | internal/store/decode.go:73-84 | never reads past the buffer, for any requested length |
| `BlockCodec.ByteReader.Str` | internal/store/decode.go:87-97 | a length prefix beyond the limit is refused before anything is taken |
| `BlockCodec.BlockDecoder.Reset` | internal/store/decode.go:106-109 | what lies ahead becomes the decoding of the new buffer from an empty previous key |
| `BlockCodec.BlockDecoder.Next` | internal/store/decode.go:112-174 | each call delivers the head of what lies ahead; at a fault it returns it, and so does every later call |
| `Layout.Header` | internal/store/writer.go:69-76 | 32 bytes: magic, version 1, SHA-256, zstd |
| `Container.IndexAt` | internal/store/writer.go:157-169 | the i-th index record is the first key, offset and size of the i-th block; the blocks tile the data section without gap or overlap |
| `Container.ReadAllRecords` | internal/store/reader.go:155-174 | reading the records of an index gives it back exactly when every first key is within the limit, and they take at least three bytes each, so the bound on the count never rejects one |
| `Container.ReadFrame` | internal/store/reader.go:180-205 | a framed block read at its place in the file decompresses to what was framed, up to the reader's limit, and is refused beyond it |
| `Container.OpenWritten` | internal/store/reader.go:57-143 | a written file opens to exactly the image the writer meant, with exact counters and a digest that verifies, unless a block starts with a path over the limit: then, and only then, it is refused as corrupt |
| `Container.WrittenServes` | internal/store/reader.go:296-322 | every block of a written file is read back by its index record |
| `Container.StreamServed` | internal/store/reader.go:296-322 | the cursor's stream over blocks served in order is their concatenation, ending at EOF |
| `FileWriter.NewWriter` | internal/store/writer.go:54-89 | header and metadata first, with offset, digest and sections set accordingly, or no writer, which happens only when a write failed |
| `FileWriter.Writer.Emit` | internal/store/writer.go:93-104 | bytes go to file, digest and offset together; after one failure nothing is written any more |
| `FileWriter.Writer.Add` | internal/store/writer.go:109-142 | accepts an entry exactly when its path is non-empty and after the last one; a rejected call leaves no trace, and which error is returned is determined |
| `FileWriter.Writer.FlushBlock` | internal/store/writer.go:147-173 | the block is sealed with its index record and the next one starts empty |
| `FileWriter.Writer.Close` | internal/store/writer.go:177-217 | a first Close that succeeds leaves exactly the layout of the accepted entries, every block but the last at the target size or over it only because of its last entry; it fails only after a failed write; a later one does nothing |
| `FileWriter.Writer.WriteIndex` | internal/store/writer.go:219-237 | the framed index is the encoding of the records built so far |
| `FileWriter.SealedSnoc` | internal/store/writer.go:157-173 | sealing one more block keeps bytes and index in step |
| `WholeFile.CutBlockReadable` | internal/store/writer.go:138-141 | a block cut by Add that decodes to its end is below 64 KiB plus one entry, far below the reader's 64 MiB |
| `WholeFile.CutIsDetermined` | internal/store/writer.go:138-141 | the entries determine where the blocks are cut, so the same entries under the same metadata give the same file |
| `WholeFile.StorableBlocksFit` | internal/store/format.go:61-67 | paths, links and errors within 64 KiB are enough for that, however the entries are cut into blocks |
| `WholeFile.WholeFileRoundTrip` | internal/store/reader.go:57-143 | opening a written file whose blocks all decode to their end succeeds, its digest verifies, the three counters are exact, and reading it through yields the accepted entries in order |
| `WholeFile.ReadsBackExactly` | internal/store/reader.go:57-176 | of any file the writer wrote: it opens if and only if every block starts with a path within 64 KiB, and reads back in full if and only if every block decodes to its end |
| `WholeFile.LongFirstPathRefused` | internal/store/decode.go:87-97 | an entry with a path over 64 KiB at the start of a block is written and then refused |
| `WholeFile.LongLaterPathAccepted` | internal/store/writer.go:243-256 | the same path after one it shares enough with is accepted |
| `WholeFile.StoredIsIdentity` | internal/store/writer.go:260-262 | what is read back is what was added if and only if entries that were not hashed carry no digest |
| `WholeFile.ErrorsMean` | internal/store/writer.go:121-123 | the footer's count of errors is the number of entries with one |
| `WholeFile.ChangeIsCaught` | internal/store/reader.go:225-237 | of a file of the same length and with the same end as a written one, and which opens, Verify is false exactly when its covered part has another digest |
| `FileReader.NewReader` | internal/store/reader.go:57-143 | the checks in the source's order, on any bytes, with wrapping 64-bit sums, and which kind of error each gives |
| `Layout.OpensExactly` | internal/store/reader.go:57-143 | on any bytes: a file opens if and only if its length, both magics, version and algorithms, the place of the three sections, the counters, the size and syntax of the metadata, the index and its length all pass; and what the image then holds, the digest at its place included |
| `Layout.RefusalMeans` | internal/store/reader.go:57-143 | and why one is refused: too short is corrupt, no magic is not a fingerprint, another version or algorithm is not supported, and a failed read is one past the end of the file |
| `Layout.RecordsInside` | internal/store/reader.go:155-174 | every index record of an opened file lies in its data section, as far as 64-bit sums tell, with a key within the limit |
| `Layout.ReadBlockMeans` | internal/store/reader.go:180-205 | a block is read if and only if its frame lies in the file, declares its own length and a plain length within the limit, and decompresses to that many bytes |
| `FileReader.CheckSections` | internal/store/reader.go:97-107 | accepts exactly when each of the three sections passes the source's test |
| `FileReader.LoadIndex` | internal/store/reader.go:145-176 | the loop over the records, with its bounds, equals the recursive parser, and says when it was the reading that failed |
| `FileReader.LoadBlock` | internal/store/reader.go:180-205 | every declared length is checked before it is used, in the source's order |
| `FileReader.Cursor.Next` | internal/store/reader.go:298-322 | delivers the head of the remaining stream, crossing block boundaries, or its end; after a fault inside a block every call returns it again, but after a block that cannot be read the next call goes on with the following one |
| `FileReader.FindBlock` | internal/store/reader.go:246-253 | the binary search returns the last block whose first key is not above the path, or the first block |
| `FileReader.SkipTo` | internal/store/reader.go:255-267 | skips exactly the entries below the path and leaves the first one not below it pending |
| `FileReader.Seek` | internal/store/reader.go:245-268 | from a writer-produced file the cursor then delivers exactly the suffix of the whole stream from the path on, for a path present, absent, before the first or after the last, having loaded at most two blocks |
| `FileReader.FromSplits` | internal/store/reader.go:242-244 | in an ordered list the entries not below a path are a suffix, and it holds every entry not below it |
| `FileReader.Iterate` | internal/store/reader.go:272-286 | the callback sees every entry in order up to the first it refuses |
| `FileReader.Verify` | internal/store/reader.go:225-237 | true exactly when the recorded digest is that of everything before it |
| `Layout.VerifiesExactly` | internal/store/reader.go:225-237 | of any file that opens, by its bytes: when the 32 bytes that end eight before the end are the digest of all those before them |
| `Classification.ClassifyPair` | internal/diff/classify.go:25-68 | the branches in the source's order compute the decision table |
| `Classification.ClassifyMeans` | internal/diff/classify.go:25-68 | the evidence each category answers to, by the fields of the two entries: ?E an error, !T another type, ~L another link target, ~F two digests that differ, ~D a directory's mode or owner, %F a file without two digests whose size or time differ, or mode or owner of anything else, and no difference none of these |
| `Classification.CompareUnhashed` | internal/diff/classify.go:72-85 | names size and mtime exactly when they differ |
| `Classification.CompareAttributes` | internal/diff/classify.go:89-102 | names mode, uid and gid exactly when they differ |
| `Classification.OpForMissing` | internal/diff/classify.go:105-116 | added or removed, directory or not: the four one-sided categories and never none |
| `Classification.ClassifyIsTwoSided` | internal/diff/classify.go:25-68 | a pair is never given a category reserved for one-sided entries |
| `Classification.MTimeIgnored` | internal/diff/classify.go:24-24 | modification times decide nothing unless a file was not hashed on both sides |
| `Classification.ClassifySelf` | internal/diff/classify.go:25-68 | an entry against itself is unchanged unless it carries an error |
| `MapDiff.MergeMember` | internal/diff/merge.go:114-166 | the merge lists exactly what the two maps say: removed, added, and pairs that classify as different |
| `MapDiff.PairReported` | internal/diff/merge.go:128-143 | of a path on both sides the merge holds at most one change, none exactly when nothing compared has changed, a ~F exactly when both files were read, hashed and differ, a ?E exactly when one has an error |
| `MapDiff.OneSidedReported` | internal/diff/merge.go:171-181 | of a path on one side exactly one: an addition or a removal, of a directory or of anything else |
| `MapDiff.MergeOrdered` | internal/diff/merge.go:112-113 | in strictly increasing path order, so at most one change per path |
| `MapDiff.MergeSplit` | internal/diff/merge.go:114-151 | the join may stop between two paths and go on: what makes a push/pull state machine possible |
| `MapDiff.MergeAccounts` | internal/diff/merge.go:128-151 | base length is compared plus removed, live length compared plus added |
| `Join.Source.Next` | internal/diff/merge.go:15-21 | entries in order through one reused buffer, then EOF or a failure |
| `Join.NewJoiner` | internal/diff/merge.go:103-110 | the first base entry is pulled; failure to do so is the only error |
| `Join.Joiner.Feed` | internal/diff/merge.go:114-151 | refuses exactly an entry not after the last; reports a refusal exactly when the callback refused the change just emitted, and a failure of the source only when it broke; otherwise keeps the state a merge of what was fed and what was passed |
| `Join.Joiner.Drain` | internal/diff/merge.go:120-126 | everything of the base below the live path is reported removed and nothing else; a refused removal and a failed source are told apart |
| `Join.Joiner.Compared` | internal/diff/merge.go:128-143 | a path on both sides is counted, classified, reported unless unchanged, and the base advances |
| `Join.Joiner.ReportRemoved` | internal/diff/merge.go:171-181 | one base entry becomes one removal and the cursor advances; a refusal is returned as the callback's own, before the source is asked again |
| `Join.Joiner.Report` | internal/diff/merge.go:201-215 | ignore before show before summary; what survives is counted and handed over once |
| `Join.KeptMeans` | internal/diff/merge.go:201-215 | what is handed over: exactly the changes the ignore rules do not match and whose category is in the show set when there is one, an added directory's with its summary when asked for |
| `Join.TallyMeans` | internal/diff/merge.go:201-215 | ignored is the number of changes the rules match, hidden that of the others outside the show set, and each count that of the rest in its category |
| `Join.KeptOrdered` | internal/diff/merge.go:112-113 | what is handed over comes in strictly increasing path order, one change per path |
| `Join.Joiner.Finish` | internal/diff/merge.go:155-166 | after Finish the emitted changes, the tally and the compared count are those of the whole merge, and by the two filters written out: what was emitted, how many were ignored and how many hidden; a second Finish does nothing |
| `Join.TallyTotals` | internal/diff/merge.go:74-81 | the counts sum to the number of emitted changes, and with ignored and hidden to the number of differences |
| `Join.MergeNeverNone` | internal/diff/merge.go:131-131 | no change of category none is ever produced |
| `Walk.VisitInside` | internal/scan/walk.go:292-309 | a visit commits nothing outside its own subtree |
| `Walk.VisitOrdered` | internal/scan/walk.go:243-311 | whatever is excluded, pruned, unreadable or vanished, the committed paths strictly increase |
| `Walk.LaterKidsAbove` | internal/scan/walk.go:292-309 | everything under a later name sorts after everything under an earlier one |
| `Walk.ScanOrdered` | internal/scan/walk.go:133-137 | so the entries of a scan are in canonical order |
| `Walk.FinishedKeeps` | internal/scan/hash.go:79-103 | hashing changes neither path, type, device, size nor mtime, and doing it twice is doing it once |
| `Walk.FinishAllPaths` | internal/scan/walk.go:175-179 | hashing a whole walk changes no path |
| `WalkerState.FillSlot` | internal/scan/walk.go:252-268 | the cell receives the stat fields, then the link target or the reason it could not be read |
| `WalkerState.Walker.NoteMount` | internal/scan/walk.go:356-360 | at most the first twenty are kept |
| `WalkerState.Walker.CrossMountOrNote` | internal/scan/walk.go:341-351 | crossed under the policy, or noted |
| `WalkerState.Walker.Decide` | internal/scan/walk.go:315-331 | the three refusals in order, the pruned counter and the note, changed exactly as the decision says |
| `WalkerState.Walker.List` | internal/scan/walk.go:270-281 | the entry takes the listing error, the children are those of the possibly partial listing |
| `WalkerState.Walker.Commit` | internal/scan/reorder.go:44-60 | the cell that was committed longest ago is the one refilled: every cell holds the last entry at its positions |
| `WalkerState.Walker.VisitPath` | internal/scan/walk.go:243-311 | the in-place recursion over the recycled cells adds the entries, pruned directories and barriers of RingVisit, the mounts noted being its first twenty barriers |
| `WalkerState.Walker.VisitChildren` | internal/scan/walk.go:292-309 | the loop does so for every child, each compared with the device the directory's own cell holds when its turn comes |
| `WalkerState.HashEntry` | internal/scan/hash.go:79-103 | partial, an error or a digest, by the source's branches |
| `RingWalk.RingVisitInside` | internal/scan/walk.go:292-309 | whatever device a recycled cell holds, a visit commits nothing outside its own subtree |
| `RingWalk.RingVisitOrdered` | internal/scan/walk.go:234-242 | and its paths strictly increase, whatever is excluded, pruned, unreadable or vanished |
| `RingWalk.NothingBelowPruned` | internal/scan/walk.go:329-330 | a directory counted as pruned, or noted as a mount, was committed and nothing below it is |
| `RingAgree.RingScansAgree` | internal/scan/walk.go:292-309 | two numbers of cells give the same walk if and only if, along the first, no decision to enter a directory changes when its parent's device is read from the cells of the second, but for directories whose entering shows nothing; otherwise the two part at an entry of another path, or with an error in one of them only |
| `WalkMeaning.EntersMeans` | internal/scan/walk.go:315-351 | a directory is entered if and only if it is the root, or above the depth limit, let through by Descend, and on the device read for its parent or on a filesystem the policy crosses; it is a barrier exactly when it is on another device and the policy is MountSame, or MountLocal and its filesystem is not local |
| `WalkMeaning.EntryAttributes` | internal/scan/walk.go:252-268 | an entry has the attributes of its object, and the link of a symbolic link that could be read |
| `WalkMeaning.EntryContent` | internal/scan/hash.go:79-103 | a regular file, when hashing is on, is partial exactly when over a limit that is set, and otherwise has the reason when it could not be opened or read, and the digest when it could; nothing else is hashed or partial |
| `WalkMeaning.EntryError` | internal/scan/walk.go:260-281 | of anything else the error is that of reading the link, or of the listing when the directory was entered |
| `WalkMeaning.EntryVanished` | internal/scan/walk.go:362-373 | a name that vanished has an entry of type error, with the reason and nothing else |
| `WalkMeaning.MetIsTold` | internal/scan/walk.go:243-373 | for everything a walk meets, and every device it reads late, there is its entry, it is among the pruned exactly when it is a directory not entered, and among the barriers exactly when it is one |
| `WalkMeaning.ScanTells` | internal/scan/walk.go:133-137 | a walk has one entry for each thing it meets and no other |
| `WalkMeaning.FileInRun` | internal/scan/hash.go:79-103 | of a regular file in any run of the concurrent scan: partial, error and digest, by the limit, the file's size and what reading its content gave |
| `WalkMeaning.DirectoryInRun` | internal/scan/walk.go:315-351 | of a directory in any run, by policy, kind of filesystem and devices: nothing below one refused for its filesystem, for the depth limit or by Descend is ever emitted, and a run that returns nil has it among the pruned exactly then, and among the noted mounts exactly for the first reason |
| `RingFaithful.RingScanIsScan` | internal/scan/walk.go:292-309 | the walk that reads the device late from a recycled cell emits what the sequential walk emits if and only if, along the latter, no decision to enter a directory changes when its parent's device is replaced by that of the last entry at the same position modulo the number of cells, but for directories whose entering shows nothing |
| `RingFaithful.FreshScan` | internal/scan/reorder.go:27-42 | with a cell for every entry the walk is the sequential one |
| `RingFaithful.WhenFaithful` | internal/scan/walk.go:292-309 | so the two walks are the same under MountAll, when every filesystem is local under MountLocal, on one device where no name vanishes, or when there are at least as many cells as entries |
| `ScanStats.Stats.Count` | internal/scan/walk.go:201-222 | one entry moves the counters by what the specification says |
| `ScanStats.CountersMean` | internal/scan/walk.go:201-222 | each counter is the number of entries of its kind, and bytes the sum of the sizes of hashed ones |
| `ScanStats.TotalIsEntries` | internal/scan/walk.go:130-131 | directories, files, links and others add up to the entries |
| `ScanStats.ScanSettles` | internal/scan/hash.go:79-103 | in the walk with recycled cells a file to be hashed ends up hashed, partial or with an error, one of them only, and nothing else is hashed or partial |
| `ScanStats.FilesAccountedFor` | internal/scan/walk.go:173-222 | so at any moment of any run of the concurrent scan the counters of what emit has been handed account for every entry, and for every file when it hashes |
| `Pipeline.StepKeepsPlaces` | internal/scan/reorder.go:44-60 | no step of walker, worker or consumer creates, duplicates or drops a cell; a cancelled submit moves its own to the lost ones |
| `Pipeline.FreeIsUnclaimed` | internal/scan/hash.go:56-66 | a cell in the pool is held by no worker and its WaitGroup is at zero |
| `Pipeline.StepWaits` | internal/scan/hash.go:58-72 | the WaitGroup of a cell counts the workers that have it or are about to, is 0 or 1, and is 0 wherever nobody will wait for it |
| `Pipeline.StepBlame` | internal/scan/walk.go:173-198 | only cancellation makes the walker fail, only the caller or an emit error cancels, at most one cell is lost, and what was emitted is what was consumed up to an emit error |
| `Pipeline.StepSummed` | internal/scan/hash.go:50-53 | a worker about to signal has put its result in |
| `Pipeline.StepPhase` | internal/scan/walk.go:164-172 | the work channel closes before the ordered one and only when every worker has left |
| `Pipeline.StepInv` | internal/scan/walk.go:156-187 | every step keeps the whole invariant |
| `Pipeline.RunInv` | internal/scan/walk.go:156-187 | so it holds in every state of every run |
| `PipelineSafety.PastStep` | internal/scan/walk.go:289-290 | entries already committed stay what they will be when delivered; only a commit adds one, at the end |
| `PipelineSafety.ConsumerSeesFinished` | internal/scan/walk.go:175-187 | while the consumer holds an entry it has waited for, no worker has its cell |
| `PipelineSafety.CellConservation` | internal/scan/reorder.go:27-60 | in every run, at every moment: all 4*Jobs cells are free, ordered or held, each in one place, but for at most one lost by a cancelled submit |
| `PipelineSafety.CommitAndReleaseNeverBlock` | internal/scan/reorder.go:31-60 | both sends of the ring always have room |
| `PipelineSafety.StepInTurn` | internal/scan/reorder.go:44-60 | both channels being first in, first out, free, consumer's, ordered and walker's cells together stay one rotation of 0, 1, ..., 4*Jobs-1 that only taking a cell advances: the n-th cell taken is always n modulo 4*Jobs |
| `PipelineSafety.SofarStep` | internal/scan/reorder.go:44-54 | the entries cells were taken for grow by one with each cell taken, and only then |
| `PipelineSafety.StepRemembers` | internal/scan/reorder.go:44-54 | the device in a cell is that of the last entry whose position is the cell's, modulo 4*Jobs |
| `PipelineSafety.FutureStep` | internal/scan/walk.go:243-311 | what the walker still owes, late reads included, changes only by what it fills in |
| `PipelineSafety.TotalStep` | internal/scan/walk.go:156-198 | past, held and owed entries, pruned directories and barriers together are the same after every step, unless the walker gives up |
| `PipelineSafety.StepRefines` | internal/scan/walk.go:156-198 | at every step the state stays one of the walk with recycled cells, and what was committed a prefix of it |
| `PipelineSafety.WalkIsRingWalk` | internal/scan/walk.go:133-198 | for every tree, mount policy, number of jobs, interleaving, cancellation point and emit error: the entries handed to emit are a prefix of the walk with recycled cells; when Walk returns nil they are all of it, and the pruned count and the noted mounts are its own; a context error means the caller cancelled |
| `PipelineSafety.WalkIsSequential` | internal/scan/walk.go:133-198 | a run that returns nil has emitted the sequential walk if and only if no late read of e.Dev changes a decision that shows; then every run emits a prefix of it |
| `PipelineSafety.JobsDoNotMatter` | internal/scan/walk.go:156-161 | two runs that return nil, whatever their interleavings, emit the same if and only if their numbers of cells agree as RingScansAgree says; they do with equal jobs, or when the late read changes no decision for either, and do not when it does for one of them only |
| `PipelineSafety.EmittedInOrder` | internal/scan/walk.go:133-137 | in every run, under every mount policy and whatever the late reads find, the emitted entries strictly increase |
| `PipelineLiveness.PoolEmptyMeansConsumerBusy` | internal/scan/reorder.go:44-54 | a walker that waits for a cell waits for the consumer |
| `PipelineLiveness.NeverStuck` | internal/scan/walk.go:164-187 | in every reachable state in which Walk has not returned some step other than a cancellation can be taken, also while draining after an emit error |
| `PipelineLiveness.StepCosts` | internal/scan/walk.go:164-187 | every step lowers one measure of entries left and stages to go |
| `PipelineLiveness.RunLengthBound` | internal/scan/walk.go:164-187 | any run has at most twelve steps per unit of tree size, plus one per worker, plus seven |
| `PipelineLiveness.MaximalRunsReturn` | internal/scan/walk.go:186-198 | a run that cannot be continued has returned |
| `PipelineLiveness.CanFinish` | internal/scan/walk.go:186-198 | every reachable state can be run to Walk's return without another cancellation or emit error |
| `PipelineLiveness.SomeRunSucceeds` | internal/scan/walk.go:186-198 | for every tree and number of jobs there is a run in which Walk returns nil |
| `PipelineLiveness.EveryJobsSame` | internal/scan/walk.go:156-161 | all runs that return nil, with however many jobs, emit the same if and only if the late read changes no decision that shows for any number of jobs |
| `StaleDevice.OneJobLosesAnEntry` | internal/scan/walk.go:289-306 | the late read is not harmless in general: over an untouched well-formed tree of seven entries, with mounts not crossed and one job, every run that returns nil has emitted six |
| `StaleDevice.TwoJobsLoseNothing` | internal/scan/walk.go:156-161 | with two jobs every such run has emitted all seven |
| `StaleDevice.BothSucceed` | internal/scan/walk.go:186-198 | and there are such runs |
| `Exclude.UnderIsSubtree` | internal/exclude/matcher.go:184-194 | the component-wise prefix test is membership in a subtree |
| `Exclude.PatternMeans` | internal/exclude/matcher.go:93-130 | a pattern with a leading slash is a place, one with *, ? or [ a glob; a place leaves out itself and everything under it, the others what they match as a whole path or as a base name |
| `Exclude.LinesMean` | internal/exclude/matcher.go:80-91 | the operator's lines leave out what each does that is neither blank nor a comment nor a place above the root, and no more |
| `Exclude.LinesRefused` | internal/exclude/matcher.go:80-91 | they are refused exactly for a malformed glob among them |
| `Exclude.AutoLinesMean` | internal/exclude/matcher.go:67-78 | automatic lines leave out no more than their patterns do, and at least the plain paths themselves |
| `Exclude.AutoRecordsNew` | internal/exclude/matcher.go:56-78 | an automatic path is recorded only when nothing recorded before it matches it |
| `Exclude.CompileMeans` | internal/exclude/matcher.go:34-54 | what a compiled set leaves out, by its defaults, the operator's patterns and the automatic paths |
| `Exclude.ExclusionSet.AddPattern` | internal/exclude/matcher.go:101-130 | dropped, refused or recorded under one of three kinds, in the source's order |
| `Exclude.ExclusionSet.AddLines` | internal/exclude/matcher.go:80-91 | blank lines and comments are skipped, the first malformed pattern stops |
| `Exclude.ExclusionSet.AddAutoLines` | internal/exclude/matcher.go:67-78 | patterns something already matches are skipped |
| `Exclude.ExclusionSet.Match` | internal/exclude/matcher.go:134-154 | prefixes, whole-path globs and base-name globs, any of them |
| `Exclude.NewSet` | internal/exclude/matcher.go:34-54 | defaults, then the operator's patterns, then the automatic ones |
| `Exclude.CompileRecorded` | internal/exclude/matcher.go:113-128 | the three lists of a compiled set are determined by its recorded patterns |
| `Exclude.RecompileSame` | internal/exclude/matcher.go:167-173 | compiling the recorded patterns under the same root gives the same set, dropped ones apart, exactly when none reads as a comment |
| `Exclude.RecompileMatches` | internal/exclude/matcher.go:134-154 | so the same paths are left alone |
| `Exclude.AutoNeverComment` | internal/exclude/matcher.go:67-78 | automatic lines that do not start with # are never recorded as a comment |
| `Exclude.AbsolutePathsRecompile` | internal/exclude/matcher.go:167-173 | so a set whose automatic paths are absolute, as filepath.Abs makes them, compiles again from its recorded patterns to the same set and the same matches |
| `Exclude.CompareKeepsPerimeter` | cmd/osfp/compare.go:107-115 | adding compare's own patterns to the recorded ones leaves out everything the fingerprint left out |
| `Exclude.CoveredPrefixInert` | internal/scan/walk.go:292-296 | when something matches p itself, excluding everything under p as well does not change what a walk emits |
| `Exclude.WideningInert` | internal/scan/walk.go:292-296 | leaving out more changes a walk if and only if it emitted something, other than its root, that is now left out |
| `Exclude.AutoSkipInert` | internal/exclude/matcher.go:56-78 | skipping automatic paths without glob characters that something already matches never changes what a walk emits, even where the cover is a glob that matches nothing below them |
| `Exclude.AutoSkipExact` | internal/exclude/matcher.go:67-78 | for any automatic lines, globs included: skipping changes nothing if and only if the walk emits nothing that the skipped ones would have left out |
| `Exclude.AutoLineLeavesOut` | internal/exclude/matcher.go:56-78 | after its line is added a path is left out if and only if it was already, or it holds no glob character and is not above the root, or read as a glob it matches itself |
| `Prune.LoadDirs` | cmd/osfp/compare.go:305-315 | the set of recorded directory paths |
| `Prune.AncestorsRecorded` | cmd/osfp/compare.go:99-102 | in what a completed walk emitted, late reads included, every ancestor, up to the root, of a path is there as a directory |
| `Prune.PrunedVisit` | cmd/osfp/compare.go:136-141 | the walk that enters known directories only is the full walk without what lies strictly below unknown ones and without their listing errors |
| `Prune.PrunedScan` | cmd/osfp/compare.go:136-141 | the same after hashing, with the unknown directories read off the full walk |
| `Prune.RecordedIsVisible` | cmd/osfp/compare.go:99-102 | nothing recorded lies below a directory the fingerprint does not know |
| `Prune.PruningIsSound` | cmd/osfp/compare.go:99-142 | against a fingerprint of any completed walk, late reads included, the changes without listing unknown directories are deep mode's less those strictly below an unknown live directory, each restated without that directory's listing error |
| `Prune.OnlyAdditionsLost` | cmd/osfp/compare.go:136-141 | every change left out is an addition, +D or +F |
| `Prune.RestatedKeeps` | internal/diff/classify.go:26-38 | restating a change keeps its path and recorded side, and its category except in one case: ?E becomes !T |
| `CompareModes.ModesAgreeOnErrors` | cmd/osfp/compare.go:136-142 | after both filters, summaries apart, modes summary and skip report deep mode's changes less those strictly below unknown directories if and only if no unknown directory that either mode reports carries a listing error |
| `CompareModes.ModesAgree` | cmd/osfp/compare.go:155-159 | with the listing errors of unknown directories set aside as well, if and only if no readable recorded non-directory has become a directory that cannot be listed, in a category the filters let through |
| `CompareModes.ModesCanDiffer` | internal/diff/classify.go:26-38 | it does happen: /x was a file and is now a directory nobody may list |
| `CompareModes.ReportsAgree` | internal/diff/merge.go:201-215 | the filters look at category and path only, so they commute with leaving changes out |
| `Summarize.SliceOfVisit` | internal/scan/walk.go:138-199 | the walk of a directory is a contiguous slice of the walk of the tree, and nothing outside the slice is at or below it |
| `Summarize.SummarizeDir` | cmd/osfp/compare.go:325-339 | the callback counts regular files, their bytes and the directories strictly below, or nothing when the walk fails |
| `Summarize.SumMeans` | cmd/osfp/compare.go:325-334 | the counters are the numbers of regular files and directories strictly below, and the sum of the sizes of the former |
| `Summarize.VisitCounts` | cmd/osfp/compare.go:319-324 | the walk that counts, its depth starting at the directory, counts at least what deep mode visits there, and exactly that if and only if it enters no directory with something to count that deep mode does not |
| `Summarize.SummaryIsDeep` | cmd/osfp/compare.go:317-340 | under any mount policy: the counters of a directory equal those of what deep mode visits strictly below it if and only if neither the mount policy nor the depth limit keeps deep mode from something that is counted |
| `Summarize.WithinDepthUncut` | cmd/osfp/compare.go:319-324 | which nothing does when deep mode enters the directory and the whole subtree is above the depth limit |
| `CompareRun.Decide` | cmd/osfp/compare.go:185-225 | expected counts the emitted volatile changes, and the exit code reports a difference exactly when asked to and some emitted change is not volatile |
| `CompareRun.VolatileMeans` | cmd/osfp/compare.go:188-201 | expected is the number of emitted changes at volatile paths |
| `CompareRun.ExitIsExact` | cmd/osfp/compare.go:222-224 | the total of the tally exceeds the expected count exactly when some emitted change is not volatile |
| `CompareRun.RetimedScan` | internal/scan/walk.go:252-268 | trees that differ in modification times give scans that do |
| `CompareRun.ScanKeepsDigests` | internal/scan/hash.go:79-103 | a scan has a digest only where it was computed |
| `CompareRun.NothingNew` | cmd/osfp/compare.go:136-141 | when every live directory is known the pruned walk is the full one |
| `CompareRun.SelfComparison` | cmd/osfp/compare.go:188-212 | comparing a tree with its own fingerprint compares every entry and reports one ?E per entry with an error, whatever the times of directories, links and hashed files have become |
| `EndToEnd.WriteAll` | internal/store/writer.go:109-142 | any sequence of Add calls, then Close: the file holds exactly the accepted entries, cut into blocks; calls without a path or out of order leave no trace |
| `EndToEnd.AnyCallsRoundTrip` | internal/store/reader.go:57-143 | and such a file opens, verifies, counts exactly and reads back as the accepted entries |
| `EndToEnd.Baseline` | cmd/osfp/baseline.go:134-152 | for an ordered walk, the file holds exactly the emitted entries |
| `EndToEnd.JoinAll` | cmd/osfp/compare.go:189-212 | feeding the live entries and finishing gives the filtered merge, its tally and its compared count |
| `EndToEnd.Compare` | cmd/osfp/compare.go:65-225 | of any file whose entries are in order: turned down exactly when it does not open, its digest is not that of its bytes, or it cannot be read to its end; otherwise only a refused change stops the command, and its report, counters, directories and exit code are those of the merge |
| `EndToEnd.WrittenIsRecorded` | cmd/osfp/compare.go:65-95 | a written file opens, verifies and is read to its end as what was written |
| `RingCompare.RingKeepsDigests` | internal/scan/hash.go:79-103 | the walk with recycled cells has a digest only where it was computed |
| `RingCompare.PartedMerge` | internal/diff/merge.go:114-166 | walks that part are reported differently, whatever the fingerprint |
| `RingCompare.PruningIsExact` | cmd/osfp/compare.go:99-142 | with the live walk that of the recycled cells, that holds if and only if its late reads change no decision that shows |
| `RingCompare.WalkAgain` | cmd/osfp/compare.go:29-226 | walked again with another number of cells and other modification times, entering known directories only, a tree gives the same entries, times apart, if and only if the two numbers of cells agree |
| `EndToEnd.WholeComparison` | cmd/osfp/compare.go:29-226 | whatever the mount policies, jobs and interleavings of the two scans: what is read back is what the first walk emitted, which is the sequential walk if and only if its late reads change no decision that shows; and the changes are deep mode's less what pruning leaves out if and only if the second's do not |
| `EndToEnd.ModesOfRuns` | cmd/osfp/compare.go:136-159 | so the reports of two such runs of compare, one in mode deep, agree if and only if no unknown directory that either reports carries a listing error, when no late read misleads either |
| `EndToEnd.SameWalk` | cmd/osfp/compare.go:29-226 | under any mount policy, the second walk of a tree is the first, times apart, if and only if the two numbers of cells agree, as they do with equal jobs |
| `EndToEnd.SilentOnItself` | cmd/osfp/compare.go:29-226 | scan, write, reopen, scan again, under any mount policy: the two walks are the same, times apart, if and only if the numbers of cells agree; then every entry is compared and the report is one ?E per error the footer counts |
| `EndToEnd.CountedEntries` | cmd/osfp/compare.go:326-334 | what the walk that counts emits is at or below the directory, and only the directory itself is at it |
| `EndToEnd.ReportedSummary` | cmd/osfp/compare.go:155-159 | the summary in the report of an added directory is the count of the counting walk, late reads included, and the same for every number of cells that agrees; when none misleads it, it is deep mode's count of what lies strictly below under the condition of SummaryIsDeep, and only then |

## Left out

- Pipeline.StepInv: filling a cell, reading the link, deciding and listing are one step, because the walker owns the cell throughout; a file is hashed in one step because nobody else reads its cell.
- FileReader.NewReader: the file is a sequence of bytes, so the only failing read is one past its end; memory allocated for a hostile footer is not modelled.
- FileWriter.Writer.Add: the file offset is unbounded; that it stays within 63 bits is a hypothesis of the round trip.
- WholeFile.WholeFileRoundTrip: metadata and index within the reader's limits are hypotheses; strings are not, their condition is `ReadsBackExactly`.
- WholeFile.ReadsBackExactly: every path, link and error is shorter than 2^63 bytes, as a Go string is.
- Join.Source.Next: the joiner's source is a list with an optional failure at its end, not the interface; the cursor's stream is shown to be such a list for written files.
- EndToEnd.Compare: the entries of a file the writer did not write are taken to be in order across its blocks, which the joiner does not check; the joiner reads the list one pass over the file returned; a second pass over the same bytes is the same list.
- Walk.FinishedKeeps: opening and reading a file are one answer per path, the same in every scan that is compared.
- EndToEnd.ReportedSummary: when a late read misleads the counting walk, its counts are stated as they are, but not when they happen to equal deep mode's all the same.
- Prune.PruningIsSound: the live tree does not change during a scan, and the fingerprint is of a walk that returned nil; the live walks are sequential ones, and RingCompare.PruningIsExact says what late reads do to them.
- CompareModes.ModesAgreeOnErrors: of sequential live walks, like PruningIsSound; EndToEnd.ModesOfRuns carries it to runs no late read misleads, and nothing is said of two misled walks whose differences the filters happen to hide.
- Exclude.AutoSkipInert: for automatic paths that are absolute, cleaned and free of glob characters; for any others `AutoSkipExact` is the exact condition.
- Exclude.RecompileMatches: stated when no recorded pattern reads as a comment; `RecompileSame` gives the exact condition for equal sets, and `AbsolutePathsRecompile` discharges it.
- Canon.CompareIsComponentwise: components are those between '/' bytes, without cleaning.
- Detail strings, reporters, progress, elapsed time, colour, privileges, flag parsing, atomic files: formatting and plumbing.
- Volatile directories: the list is data; the test is an arbitrary predicate here.
- Default exclusions and filesystem-type tables: data.
- internal/osdetect: parsers without a matching printer.
- Detection of the root: Walk's refusal of a root that is not a directory is the hypothesis that it is one.
- Walk with a root that is not absolute: joining a name to "." drops the dot, and the order theorem does not hold of such paths.
