# qgit commit records, file records and view state, in Dafny

qgit reads the output of `git log` into one growing byte buffer and never copies
it.  Each commit is a `Rev` that keeps offsets into that buffer.
`Rev::indexData` walks one record and does three things:

- it finds the sha, the parents, the committer, author and date lines, the log
  and the diff;
- it writes NUL terminators into the buffer in place, so that `sha()` and
  `parent(i)` can be read as C strings;
- it returns one of three values: where the next record starts, -1 ("incomplete,
  wait for more data"), or -2 (a "Final output" line that the caller handles).

`RevFile` lists the files a commit touches as pairs of indices into shared
string tables.  Its cache serialiser leaves out three fields in their common
case.  `StateInfo` holds the selection a view shows in three slots: current,
previous good, and queued while an update holds the lock.  `Domain` keeps the
drag-and-drop flags of a view.

The project has six files:

- `bytearray.dfy` (module `ByteArray`): the QByteArray operations used, namely
  `indexOf`, the C-string view of a position, NUL fix-ups and the digit
  accumulation.
- `rev.dfy` (module `RevIndex`): the record layout and class `Rev`.
  - The specification function `Index` gives the result code and the offsets
    one `indexData` call produces.  Its log split is the corrected one of
    "## Findings"; "## Left out" says where that differs from the source.
  - `Written` gives the positions where the call writes a NUL.
  - Both take the buffer contents before the call.
  - The imperative `Rev.IndexData` runs over an `array<char>` with the digit
    loop and the parent `do…while` loop.  It is proved equal to them.
- `revprops.dfy` (module `RevProperties`): what one indexing guarantees, as
  lemmas about `Index` and `Written`.
- `revfile.dfy` (module `RevFiles`): `RevFile`, its accessors, and its
  serialiser over a stream of typed tokens, with the round trip.
- `domain.dfy` (module `DomainState`): `StateInfo::S`, class `StateInfo` and
  the drag flags of class `Domain`.
- `wrappers.dfy` (module `Wrappers`): `Option`.

## Model

| member | source | states |
|---|---|---|
| ByteArray.IndexOf | src/common.cpp:245 | the result is -1 exactly when `c` does not occur at or after `from`; otherwise it is the first position at or after `from` holding `c` |
| ByteArray.IndexOfAgree | src/common.cpp:245 | two buffers that agree from `from` on give the same search result |
| ByteArray.IndexOfSeq | src/common.cpp:303 | the result is -1 exactly when the pattern occurs nowhere at or after `from`; otherwise it is its first occurrence there |
| ByteArray.CStr | src/common.cpp:88-92 | the C string at `p` is a NUL-free slice of the buffer starting at `p`; it ends at a NUL or at the buffer's end |
| ByteArray.CStrUpTo | src/common.cpp:216-218 | a C string whose NUL comes after exactly `n` non-NUL characters is those `n` characters |
| ByteArray.WithNuls | src/common.cpp:218 | the buffer after NULs were written keeps its length; it holds NUL at the written positions and the old byte elsewhere |
| ByteArray.WithNulsSlice | src/common.cpp:233 | a range where no NUL was written reads as before |
| ByteArray.WithNulsAdd | src/common.cpp:233 | writing one more NUL adds its position to the written set |
| ByteArray.DigitsValue | src/common.cpp:197-199 | the accumulated log size of decimal digits is non-negative and below 10 to the number of digits |
| RevIndex.ReadHeader | src/common.cpp:190-204 | without a "log size" line, the sha starts one past `start` and the log size is 0; with one, the log size is the value of the characters up to the first newline, and the sha starts two past that newline; None exactly when that newline has not arrived |
| RevIndex.ParentLoop | src/common.cpp:225-235 | the do-while loop counts at least one chunk and stops on the separator after the last chunk it counted |
| RevIndex.ParentLoopShape | src/common.cpp:225-235 | every chunk but the last got a NUL and is not followed by a newline; the last got a NUL exactly when it lies inside the buffer, and then a newline follows it; every NUL sits on a 41-byte chunk separator |
| RevIndex.ScanParents | src/common.cpp:220-237 | the parent count is 0 exactly when a newline stands two places after the sha's place holder, and then nothing is written; otherwise the count is the do-while loop's |
| RevIndex.RecordEnd | src/common.cpp:242-253 | with a diff or without a log size, the record end is the first NUL after both the sha line and the declared log, or -1 when none has arrived; otherwise it is the end of the declared log; it never passes the last byte |
| RevIndex.DiffSpan | src/common.cpp:300-309 | without a diff the span is (0, 0). With a declared log size, it starts one past the log end and runs to the record end, or is (0, 0) when the log end is not before the record end. Without one, a span exists exactly when a "\ndiff " marker starts between the log text and the record end; it then starts one past the marker's leading newline, on the `d` of `diff`, and runs to the record end |
| RevIndex.SplitLogSpans | src/common.cpp:310-345 | an empty window gives zero spans; otherwise the short log is newline-free and starts the window; a long log exists exactly when a newline comes before the window's last byte, and then runs from that newline to the window's end; without one, the short log is the window less at most one trailing newline |
| RevIndex.SplitLogAsWritten | src/common.cpp:326-345 | the log split with the unguarded trailing-newline test; without a long log, the short log reaches to within one byte of the window's end |
| RevIndex.EmptyLogAsWritten | src/common.cpp:339-341 | for an empty log window after a newline, the split as written gives the short log length -1, while the guarded split gives 0 |
| RevIndex.Prelude | src/common.cpp:181-214 | once the header checks pass, the sha line and the declared log lie inside the buffer |
| RevIndex.ReadLogSize | src/common.cpp:190-200 | the digit loop stops at the first newline and accumulates the digits before it; it reports when no newline follows |
| RevIndex.ReadHeaderOf | src/common.cpp:190-207 | the header phase on the array computes ReadHeader of its contents |
| RevIndex.ScanParentsInPlace | src/common.cpp:220-235 | the parent scan on the array counts what ScanParents counts and stops where it stops; it writes NULs exactly at ScanParents's positions |
| RevIndex.ParentLoopInPlace | src/common.cpp:225-235 | the do-while loop on the array returns ParentLoop's count and end, and writes exactly its NULs |
| RevIndex.ShaAndParentsInPlace | src/common.cpp:216-237 | NUL after the sha, then the parent scan; the index is left on the sha line's newline, and the array holds exactly the body's NULs |
| RevIndex.RevMarks.constructor | src/common.cpp:50-51 | the diff-cache, applied and unapplied flags start false and the three colouring slots start at -1 |
| RevIndex.Rev.constructor | src/common.cpp:48-54 | a Rev on the buffer and start given, with every offset 0, not indexed, and fresh marks in their initial state |
| RevIndex.SplitLogDivergence | src/common.cpp:326-345 | the split as written and the guarded split agree on every window except an empty one right after a newline, where the written one gives the short log length -1 and the guarded one 0 |
| RevIndex.Index | src/common.cpp:143-348 | the specification of one indexData call: the result code and the offsets afterwards, as functions of the buffer before the call; its properties are the RevProperties lemmas |
| RevIndex.Written | src/common.cpp:216-235 | the positions where indexData writes a NUL: none when it stops before the sha, otherwise the sha's place holder and the separator of every parent chunk the loop closed (WrittenShape, BodyNulsShape) |
| RevIndex.Rev.IsBoundary | src/common.cpp:56-60 | a boundary commit is marked by a '-' just before the sha |
| RevIndex.Rev.ParentsCount | src/common.cpp:62-66 | the parent count recorded by indexing (ParentsCounted) |
| RevIndex.Rev.Sha | src/common.cpp:88-92 | the C string at the sha position; after indexing, its 40 characters (ShaView) |
| RevIndex.Rev.Parent | src/common.cpp:68-72 | the C string at shaStart + 41 + 41*i; after indexing, the 40 characters of parent chunk i (ParentView) |
| RevIndex.Rev.Parents | src/common.cpp:74-86 | the list has parentsCnt entries; entry i is the 40 characters at shaStart + 41 + 41*i |
| RevIndex.Rev.Setup | src/common.cpp:136-141 | an indexed Rev keeps its offsets and the buffer; otherwise the offsets and the written NULs are those of a full, diff-less indexing |
| RevIndex.Rev.IndexData | src/common.cpp:143-348 | the code returned and the offsets left are those of Index on the buffer before the call; the buffer afterwards is the old one with NULs at exactly the positions Written gives |
| RevIndex.Rev.IndexBodyData | src/common.cpp:216-347 | once the sha and the declared log fit, the code and the offsets are IndexBody's, and the buffer gets exactly the body's NULs |
| RevIndex.Rev.AfterParentsData | src/common.cpp:237-347 | from the sha line's newline on, the code and the offsets are IndexBody's for the buffer before the scan |
| RevIndex.Rev.IndexDetails | src/common.cpp:263-347 | the committer, author and date lines and then the log and diff leave Details's code and offsets |
| RevIndex.Rev.SetHeaderLines | src/common.cpp:266-288 | each line start is recorded once the line before it was found to end |
| RevIndex.Rev.IndexLogAndDiff | src/common.cpp:300-347 | the diff span, the log split and the indexed flag are those of LogAndDiff |
| RevIndex.NewRev | src/common.cpp:48-54 | a fresh Rev, quick-indexed; `next` and the offsets are those of a quick Index from unset offsets, and the buffer has exactly Written's NULs |
| RevIndex.LineEnds | src/common.cpp:266-294 | the three newline searches of the committer, author and date lines; a search that fails ends the chain |
| RevIndex.RecordEndOf | src/common.cpp:242-250 | the record-end search computes RecordEnd |
| RevIndex.DiffOf | src/common.cpp:300-309 | the diff search computes DiffSpan |
| RevIndex.LogOf | src/common.cpp:316-345 | the log split computes SplitLog, the split whose properties SplitLogSpans states |
| RevProperties.TooShort | src/common.cpp:181-182 | fewer bytes than a sha header after `start`: the result is -1, the offsets are unchanged and nothing is written |
| RevProperties.FinalOutputLine | src/common.cpp:184-185 | a record starting with 'F': the result is -2 exactly when a newline follows, and -1 otherwise; the offsets are unchanged and nothing is written |
| RevProperties.HeaderChecks | src/common.cpp:190-214 | the result is -1, with nothing written, when the log-size line has no newline, when the sha line passes the last byte, or when the declared log passes it (the sha position is already recorded in that case) |
| RevProperties.BoundaryPosition | src/common.cpp:190-207 | the boundary character is the record's first character, or the first one after the log-size line; the log size is 0 without that line |
| RevProperties.DetailsFacts | src/common.cpp:263-347 | the details keep the sha and parent fields; they stop at -1 without marking the Rev indexed, or return revEnd + 1 with the Rev indexed; in that case the committer, author and date lines are newline-delimited and in order |
| RevProperties.ScanNuls | src/common.cpp:220-235 | every NUL of the parent scan lies inside the buffer, on a chunk separator after the sha |
| RevProperties.BodyNulsShape | src/common.cpp:216-237 | the NUL after the sha is written; every NUL lies on a separator of the sha line, before its newline |
| RevProperties.WrittenShape | src/common.cpp:216-235 | once the header checks pass, the NULs written are those of the body |
| RevProperties.IndexIsBody | src/common.cpp:204-216 | once the header checks pass, indexing is the body with the sha position recorded |
| RevProperties.BodyIsAfterParents | src/common.cpp:216-261 | the body is the parent scan, with its count recorded, and then the rest read from the buffer with the NULs in place |
| RevProperties.AfterParentsFacts | src/common.cpp:242-261 | no record end gives -1 with nothing recorded; a quick indexing without a diff records nothing; otherwise the result is -1 or revEnd + 1 and the details decide the indexed flag |
| RevProperties.BodyParents | src/common.cpp:220-237 | the sha position and the parent count survive the rest of the body |
| RevProperties.ParentsCounted | src/common.cpp:220-237 | after indexing, the sha position is recorded; the parent count is the scan's, and it is 0 exactly when a newline stands at shaStart + 42 |
| RevProperties.UntouchedAfterShaLine | src/common.cpp:216-237 | past the sha line the buffer is unchanged |
| RevProperties.RecordEndAgree | src/common.cpp:242-248 | the record-end search reads only past the sha line |
| RevProperties.BodyRecordEnd | src/common.cpp:242-261 | the body returns -1 when no record end exists, and otherwise -1 or one past the record end found on the original buffer |
| RevProperties.RecordEndAt | src/common.cpp:242-261 | past the header checks, indexing returns -1 when no record end exists, and otherwise -1 or one past the record end |
| RevProperties.DecimalHeader | src/common.cpp:190-200 | a decimal log size is never negative |
| RevProperties.AdvancesPastHeader | src/common.cpp:242-347 | past the header checks, with a decimal log size, the result is -1 or a position past `start` and at most the buffer's length |
| RevProperties.Advances | src/common.cpp:181-347 | with a decimal log size, indexing returns -1, -2 (only on an 'F' record), or a position past `start` and at most the buffer's length |
| RevProperties.FinalOutputExactly | src/common.cpp:181-185 | with a decimal log size, -2 is returned exactly for an 'F' record, long enough and followed by a newline |
| RevProperties.AfterParentsIndexed | src/common.cpp:242-347 | after the parent scan, a quick indexing without a diff leaves the indexed flag; any other sets it exactly when it returns a record end |
| RevProperties.BodyIndexed | src/common.cpp:216-347 | the indexed-flag rule, for the body |
| RevProperties.IndexedAfterHeader | src/common.cpp:204-347 | the indexed-flag rule, past the header checks |
| RevProperties.IndexedFlag | src/common.cpp:260-347 | a quick indexing without a diff never changes the indexed flag; any other sets it exactly when it returns a next-record position, so a later setup does nothing |
| RevProperties.OffSlot | src/common.cpp:228 | a position strictly inside a 41-byte chunk is not a separator |
| RevProperties.BodyShaView | src/common.cpp:216-218 | with the body's NULs written, the C string at the sha is its 40 characters |
| RevProperties.ShaView | src/common.cpp:88-92 | after indexing, sha() is the 40 characters of the sha |
| RevProperties.ChunkClosed | src/common.cpp:225-235 | the loop wrote a NUL right after every parent chunk it closed |
| RevProperties.ChunkClear | src/common.cpp:225-235 | no NUL is written inside a parent chunk |
| RevProperties.BodyParentView | src/common.cpp:68-72 | after the body, the C string at parent chunk i is its 40 characters |
| RevProperties.ParentView | src/common.cpp:68-72 | after indexing, parent(i) is the 40 characters at shaStart + 41 + 41*i, for every chunk the loop closed with a NUL |
| RevFiles.Take | src/common.cpp:426-449 | a read succeeds exactly when the next token has the wanted kind, and then consumes it; otherwise it consumes nothing and marks the stream failed |
| RevFiles.DataStream.Write | src/common.cpp:393 | a write appends one token and leaves the stream status |
| RevFiles.DataStream.Read | src/common.cpp:428 | a read on the stream computes Take |
| RevFiles.ReadSection | src/common.cpp:430-432 | a field read after its flag has the kind asked for |
| RevFiles.SectionRoundTrip | src/common.cpp:396-400 | a section read back gives its presence flag and its field, and consumes exactly the section |
| RevFiles.DecodeEncode | src/common.cpp:390-449 | decoding an encoding, whatever follows it, leaves the stream right after it with its status unchanged; it restores the paths and the only-modified flag; it restores the status unless only modified, the merge parents unless skipped, and the extended status unless empty; the fields it does not restore keep their old values |
| RevFiles.RoundTrip | src/common.cpp:390-449 | into a fresh RevFile the record comes back as written, except for two fields, which come back empty: the status of an only-modified record, and a merge-parent vector that is empty or ends in 1 |
| RevFiles.EncodeInjective | src/common.cpp:390-420 | two records encode alike exactly when they agree on everything but those two skipped fields |
| RevFiles.RevFile.constructor | src/common.cpp:350 | a new RevFile has no files and is only modified |
| RevFiles.RevFile.Count | src/common.cpp:364-368 | the count is the number of complete (directory, name) pairs in pathsIdx |
| RevFiles.RevFile.StatusCmp | src/common.cpp:370-374 | a match needs a non-empty mask; while only modified, a file matches exactly when the mask holds MODIFIED |
| RevFiles.RevFile.ExtendedStatus | src/common.cpp:376-385 | an index inside the list gives its note; past the list's end the note is "" |
| RevFiles.RevFile.DirAt | src/common.cpp:352-356 | the directory index of file i, the i-th slot of pathsIdx (PathsLayout) |
| RevFiles.RevFile.NameAt | src/common.cpp:358-362 | the name index of file i, slot count() + i of pathsIdx (PathsLayout) |
| RevFiles.Encode | src/common.cpp:390-420 | the tokens operator>> writes: the paths, then three sections, each a flag followed by its field only when the field is present; DecodeEncode and EncodeInjective state what it keeps |
| RevFiles.Decode | src/common.cpp:425-449 | what operator<< makes of the stream and the previous contents; a field whose flag says empty keeps its old value; DecodeEncode and RoundTrip relate it to Encode |
| RevFiles.RevFile.WriteTo | src/common.cpp:390-420 | writing appends exactly the encoding of the RevFile's contents |
| RevFiles.RevFile.ReadFrom | src/common.cpp:425-449 | reading computes Decode of the stream and the old contents |
| RevFiles.WriteSection | src/common.cpp:396-400 | the flag, then the field only when present |
| RevFiles.ReadSectionOf | src/common.cpp:428-432 | the flag, then the field when the flag is 0, as ReadSection |
| RevFiles.Paths | src/common.cpp:352-368 | the layout holds two slots per file |
| RevFiles.PathsLayout | src/common.cpp:352-368 | laid out from n directory and n name indices, the RevFile counts n files; dirAt(i) and nameAt(i) give back pair i |
| RevFiles.PathsOfPairs | src/common.cpp:352-368 | an even-length pathsIdx is exactly the layout of the pairs dirAt and nameAt read |
| DomainState.SEquals | src/domain.cpp:42-50 | two states are equal exactly when all six fields agree |
| DomainState.SNotEquals | src/domain.cpp:52-56 | two states differ exactly when one of the six fields differs |
| DomainState.Changed | src/domain.cpp:242-259 | the sequential test is true exactly when sha, file name, diff target or all-merge-files differs for a masked bit |
| DomainState.ChangedIgnoresSelAndMerge | src/domain.cpp:242-259 | the selection and merge flags never count as a change |
| DomainState.ChangedAny | src/domain.cpp:242-259 | a state never differs from itself; with the full mask, any difference in a tracked field shows |
| DomainState.StateInfo.constructor | src/domain.cpp:203 | a new StateInfo has all three slots cleared and is unlocked |
| DomainState.StateInfo.Clear | src/domain.cpp:33-68 | every slot becomes the cleared state (empty strings, selection on, flags off); the lock is released and nothing is pending |
| DomainState.StateInfo.Update | src/domain.cpp:106-158 | while locked a change goes to the queued slot, otherwise to the current one; the other slots and the lock stay |
| DomainState.StateInfo.SetSha | src/domain.cpp:106-113 | the sha goes to the queued slot while locked, otherwise to the current one; the sha getter sees it unless locked |
| DomainState.StateInfo.SetFileName | src/domain.cpp:115-122 | the file name goes to the queued slot while locked, otherwise to the current one |
| DomainState.StateInfo.SetDiffToSha | src/domain.cpp:124-131 | the diff target goes to the queued slot while locked, otherwise to the current one |
| DomainState.StateInfo.SetSelectItem | src/domain.cpp:133-140 | the selection flag goes to the queued slot while locked, otherwise to the current one |
| DomainState.StateInfo.SetIsMerge | src/domain.cpp:142-149 | the merge flag goes to the queued slot while locked, otherwise to the current one |
| DomainState.StateInfo.SetAllMergeFiles | src/domain.cpp:151-158 | the all-merge-files flag goes to the queued slot while locked, otherwise to the current one |
| DomainState.StateInfo.SetLock | src/domain.cpp:166-172 | taking the lock copies the current state into the queue, so nothing is pending; releasing it changes only the flag |
| DomainState.StateInfo.Commit | src/domain.cpp:174-178 | the current state becomes the previous good one, so no field counts as changed |
| DomainState.StateInfo.RollBack | src/domain.cpp:180-190 | back to the previous good state; a queued state equal to the abandoned one is cleared, so nothing is pending afterwards; no field counts as changed |
| DomainState.StateInfo.FlushQueue | src/domain.cpp:192-201 | returns true and makes the queued state current exactly when a request is pending; nothing is pending afterwards |
| DomainState.StateInfo.Assign | src/domain.cpp:204-222 | only the other's current state is taken: into the queue while locked, as the current state otherwise; self-assignment changes nothing; the previous state stays |
| DomainState.StateInfo.View | src/domain.cpp:70-104 | the slot the getters read: the current state for n, the previous good state otherwise |
| DomainState.StateInfo.Sha | src/domain.cpp:70-74 | the sha of the current state for n, of the previous one otherwise; the setters state what it sees |
| DomainState.StateInfo.FileName | src/domain.cpp:76-80 | the file name of the current or the previous state |
| DomainState.StateInfo.DiffToSha | src/domain.cpp:82-86 | the diff target of the current or the previous state |
| DomainState.StateInfo.SelectItem | src/domain.cpp:88-92 | the selection flag of the current or the previous state |
| DomainState.StateInfo.IsMerge | src/domain.cpp:94-98 | the merge flag of the current or the previous state |
| DomainState.StateInfo.AllMergeFiles | src/domain.cpp:100-104 | the all-merge-files flag of the current or the previous state |
| DomainState.StateInfo.RequestPending | src/domain.cpp:160-164 | a queued state naming a commit and differing from the current one (PendingFields spells it out) |
| DomainState.StateInfo.Equals | src/domain.cpp:224-234 | StateInfo equality on the current states only (StateEquality) |
| DomainState.StateInfo.NotEquals | src/domain.cpp:236-240 | the negation of Equals (StateEquality) |
| DomainState.StateInfo.IsChanged | src/domain.cpp:242-259 | whether a masked tracked field differs between the current and the previous state (Changed, ChangedAny) |
| DomainState.StateEquality | src/domain.cpp:224-240 | StateInfo equality is equality of the current states, symmetric; != is its negation |
| DomainState.PendingFields | src/domain.cpp:160-164 | a request is pending exactly when the queued state names a commit and differs from the current one in some field |
| DomainState.Domain.constructor | src/domain.cpp:264-281 | the state is cleared and every flag is off |
| DomainState.Domain.SetReadyToDrag | src/domain.cpp:379-384 | ready exactly when asked and neither busy, dragging nor dropping; never ready while dragging |
| DomainState.Domain.SetDragging | src/domain.cpp:392-406 | dragging exactly when asked, ready and not dropping; a drag that starts clears the ready flag, so the two are never both set; a drag that ends flushes the queue unless busy |
| DomainState.Domain.SetDropping | src/domain.cpp:414-418 | only the dropping flag changes |
| DomainState.Domain.FlushQueue | src/domain.cpp:466-478 | a pending request is flushed exactly when the view is not busy |

## Left out

- Rev::mid and Rev::midSha, and the text accessors built on them (committer, author, authorDate, shortLog, longLog, diff).
  - The model keeps their offset and length spans.
  - Decoding the bytes with a text codec is about characters, not offsets.
- RevIndex.LogOf: the trailing-newline strip is guarded by a non-empty short log, the corrected split of "## Findings". On an empty log window right after a newline the source leaves `sLogLen` at -1 and the model leaves 0; RevIndex.SplitLogDivergence states that this is the only difference.
- RevIndex.Rev.IndexLogAndDiff: its log spans come from the guarded split, so on that one input its `sLogLen` is 0 where the source's is -1.
- RevIndex.Rev.IndexDetails: inherits the guarded split through Details, with the same one difference in `sLogLen`.
- RevIndex.Rev.AfterParentsData: inherits the guarded split through IndexBody, with the same one difference in `sLogLen`.
- RevIndex.Rev.IndexBodyData: inherits the guarded split through IndexBody, with the same one difference in `sLogLen`.
- RevIndex.Rev.IndexData: its offsets are Index's, which use the guarded split; on an empty log window right after a newline its `sLogLen` is 0 where the source's is -1. The code returned, every other offset and the NULs written are as in the source.
- RevIndex.Rev.Setup: the full indexing it runs has the same one difference in `sLogLen`.
- RevIndex.NewRev: a quick indexing with a diff runs the full path and has the same one difference in `sLogLen`.
- Qt implicit sharing of the QByteArray is not modelled. The source writes NULs through a `const_cast` into the data it shares with the caller; the model has one `array<char>` that both see.
- Rev's `int* next` out-parameter becomes the second result of RevIndex.NewRev.
- Rev's diff-cache, applied and colouring members live in a companion object, RevIndex.RevMarks, which indexing never touches.
- RevIndex.Rev.constructor: the offsets start at 0. The Rev constructor leaves them to src/common.h, which is not part of this model.
- `start` is unsigned in the constructor's signature, so it is a `nat`.
- RevIndex.ReadHeader: when the "log size" line has no newline yet, the source's digit loop reads past the end of the data. The model returns -1 instead.
- ByteArray.DigitsValue: the log size is an unbounded integer, without a 32-bit `int`'s overflow on a huge value.
- The final check `revEnd > last` (src/common.cpp:252-253) is not a separate branch. RecordEnd proves that the record end never passes the last byte, so the check cannot fire.
- `dbs` debug messages are left out.
- src/common.h is not part of this model. Two of its constants are assumed:
  - MODIFIED is 1;
  - `sizeof(int)` is 4 (RevFiles.IntSize).
- The byte encoding of QDataStream is not modelled: the stream is a sequence of typed tokens.
  - A read of the wrong kind, or past the end, consumes nothing and marks the stream failed.
  - A failed container read leaves an empty container. A failed flag read counts as 0 ("not empty").
- RevFiles.RevFile.DirAt and RevFiles.RevFile.NameAt require an index inside `pathsIdx`. The source reads the raw int array unchecked.
- StatusCmp and ExtendedStatus require the index that QVector::at and QList::at demand.
- StateInfo::S::operator== and StateInfo::operator== start with an identity shortcut. For S values this is the same as field-wise equality. For StateInfo it is kept as `other == this`.
- StateInfo::operator= returns `*this`; the return is not modelled.
- These parts of Domain are left out, because they are Qt event posting, signal connections, exception-based cancellation, timers and widgets:
  - Domain::update, event, sendPopupEvent, deleteWhenDone and on_deleteWhenDone;
  - linkDomain, unlinkDomain and on_updateRequested;
  - the UPDATE() event posted by Domain::flushQueue;
  - the file-history model in Domain::Domain and Domain::clear.
- Domain::isReadyToDrag, isDragging, isDropping and isLinked are plain field reads of the class's fields.
- The lane layout, annotation, git process and widget code are not part of this model.
- The event carrier classes in src/common.cpp:453-482 are not part of this model.

## Findings

| source | as written | input that shows it | evidently intended | confidence | as-written member | corrected member |
|---|---|---|---|---|---|---|
| src/common.cpp:339-341 | without a long log, the trailing-newline test reads `data[sLogStart + sLogLen - 1]` even when `sLogLen` is 0. When that byte is the newline ending the author-date line, `sLogLen` is left at -1, a negative length for the short-log span | a record without log text and without the blank line the record layout describes: no log size, no diff, and the terminating NUL right after the author-date line's newline, so the log window is empty (`logEnd == sLogStart`); for example `" "`, 40 `a`s, `"XX\nc\na\n1\n"` and a NUL | strip a trailing newline only from a non-empty short log, so an empty log gets length 0 | low: not executed | RevIndex.EmptyLogAsWritten | RevIndex.SplitLogSpans |
