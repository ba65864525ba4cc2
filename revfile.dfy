/**
  RevFile, the per-commit file-change record, and its cache serialiser.

  A RevFile lists the files a commit touches as indices into shared string
  tables: `pathsIdx` holds the directory index of every file, followed by the
  name index of every file.  The status of each file is a bit set, with the
  common case "every file is only modified" kept as one flag instead.

  The cache stream is modelled as a sequence of typed tokens: a QByteArray, a
  32-bit word, a vector of status words, a vector of ints or a list of
  strings.  The byte encoding of each token is Qt's and is not modelled.
 */
module RevFiles {
  import opened Wrappers

  /** RevFile::MODIFIED, the status every file has when `onlyModified`. */
  const Modified: bv32 := 1
  /** sizeof(int): `pathsIdx` is a QByteArray of native ints. */
  const IntSize := 4

  /** The contents of a RevFile. */
  datatype FileData = FileData(pathsIdx: seq<int>, onlyModified: bool, status: seq<bv32>,
                               mergeParent: seq<int>, extStatus: seq<string>)

  /** What RevFile::RevFile() leaves: no files, every file only modified. */
  const Fresh := FileData([], true, [], [], [])

  // ---------------------------------------------------------------------
  // The cache stream
  // ---------------------------------------------------------------------

  datatype Token =
    | Bytes(words: seq<int>)
    | Word(w: bv32)
    | Statuses(flags: seq<bv32>)
    | Ints(ints: seq<int>)
    | Strings(strs: seq<string>)

  datatype Kind = BytesKind | WordKind | StatusesKind | IntsKind | StringsKind

  function KindOf(t: Token): Kind
  {
    match t
    case Bytes(_) => BytesKind
    case Word(_) => WordKind
    case Statuses(_) => StatusesKind
    case Ints(_) => IntsKind
    case Strings(_) => StringsKind
  }

  /** A stream seen from its reading end: the tokens not read yet, and
      whether every read so far succeeded. */
  datatype Reader = Reader(tokens: seq<Token>, ok: bool)

  /** One read of a token of kind `k`.  It succeeds when the next token has
      that kind; otherwise nothing is consumed and the stream is marked as
      failed, the way QDataStream marks a read past its end. */
  function Take(r: Reader, k: Kind): (res: (Option<Token>, Reader))
    ensures res.0.Some? <==> r.tokens != [] && KindOf(r.tokens[0]) == k
    ensures res.0.Some? ==> res.0.value == r.tokens[0] && res.1 == r.(tokens := r.tokens[1..])
    ensures res.0.None? ==> res.1 == r.(ok := false)
  {
    if r.tokens != [] && KindOf(r.tokens[0]) == k then (Some(r.tokens[0]), r.(tokens := r.tokens[1..]))
    else (None, r.(ok := false))
  }

  /** A QDataStream over a buffer of tokens: writes append to it, reads
      consume from its front. */
  class DataStream {
    var tokens: seq<Token>
    var ok: bool

    ghost function Reading(): Reader
      reads this
    {
      Reader(tokens, ok)
    }

    constructor ()
      ensures tokens == [] && ok
    {
      tokens, ok := [], true;
    }

    /** stream << t */
    method Write(t: Token)
      modifies this
      ensures tokens == old(tokens) + [t] && ok == old(ok)
    {
      tokens := tokens + [t];
    }

    /** stream >> t, for a token of kind `k`. */
    method Read(k: Kind) returns (t: Option<Token>)
      modifies this
      ensures (t, Reading()) == Take(old(Reading()), k)
    {
      if tokens != [] && KindOf(tokens[0]) == k {
        t := Some(tokens[0]);
        tokens := tokens[1..];
      } else {
        t := None;
        ok := false;
      }
    }
  }

  // ---------------------------------------------------------------------
  // Encoding and decoding, as functions
  // ---------------------------------------------------------------------

  /** The merge-parent vector is left out when it is empty or its last entry
      is 1 (the common case of a single parent). */
  predicate SkipsMergeParent(d: FileData)
  {
    d.mergeParent == [] || d.mergeParent[|d.mergeParent| - 1] == 1
  }

  /** An optional field on the stream: a 32-bit "is empty" flag, then the
      field itself only when it is present. */
  function Section(present: bool, t: Token): (ts: seq<Token>)
  {
    [Word(if present then 0 else 1)] + (if present then [t] else [])
  }

  /** The tokens RevFile::operator>> writes: the paths, then the status,
      the merge parents and the extended status, each as a section. */
  function Encode(d: FileData): (ts: seq<Token>)
  {
    [Bytes(d.pathsIdx)]
    + Section(!d.onlyModified, Statuses(d.status))
    + Section(!SkipsMergeParent(d), Ints(d.mergeParent))
    + Section(d.extStatus != [], Strings(d.extStatus))
  }

  /** The reading of one section: the flag, and the field read after it only
      when the flag is 0.  Returns whether the flag said "empty", the field
      read (None when skipped or when the read failed) and the stream after. */
  function ReadSection(r: Reader, k: Kind): (res: (bool, Option<Token>, Reader))
    ensures res.1.Some? ==> KindOf(res.1.value) == k
  {
    var (flag, r1) := Take(r, WordKind);
    var empty := flag.Some? && flag.value.Word? && flag.value.w != 0;
    if empty then (true, None, r1)
    else
      var (t, r2) := Take(r1, k);
      (false, t, r2)
  }

  /** A section read back gives its presence and its field, and consumes
      exactly it. */
  lemma SectionRoundTrip(present: bool, t: Token, rest: seq<Token>, ok: bool)
    ensures ReadSection(Reader(Section(present, t) + rest, ok), KindOf(t))
         == (!present, if present then Some(t) else None, Reader(rest, ok))
  {
    var ts := Section(present, t) + rest;
    assert ts[0] == Word(if present then 0 else 1);
    if present {
      assert ts[1..][0] == t && ts[1..][1..] == rest;
    } else {
      assert ts[1..] == rest;
    }
  }

  function BytesOf(t: Option<Token>): seq<int>
  {
    if t.Some? && t.value.Bytes? then t.value.words else []
  }

  /** The field of a section into `old_`: skipped leaves it, a failed read
      empties it, the way Qt's container reads clear their target first. */
  function StatusesOf(skipped: bool, t: Option<Token>, old_: seq<bv32>): seq<bv32>
  {
    if skipped then old_ else if t.Some? && t.value.Statuses? then t.value.flags else []
  }

  function IntsOf(skipped: bool, t: Option<Token>, old_: seq<int>): seq<int>
  {
    if skipped then old_ else if t.Some? && t.value.Ints? then t.value.ints else []
  }

  function StringsOf(skipped: bool, t: Option<Token>, old_: seq<string>): seq<string>
  {
    if skipped then old_ else if t.Some? && t.value.Strings? then t.value.strs else []
  }

  /** What RevFile::operator<< makes of the contents `d` before the call
      and the stream `r`: the new contents and the stream afterwards.  A
      field whose flag says it is empty keeps its previous value. */
  function Decode(r: Reader, d: FileData): (FileData, Reader)
  {
    var (p, r0) := Take(r, BytesKind);
    var (s1, t1, r1) := ReadSection(r0, StatusesKind);
    var (s2, t2, r2) := ReadSection(r1, IntsKind);
    var (s3, t3, r3) := ReadSection(r2, StringsKind);
    (FileData(BytesOf(p), s1, StatusesOf(s1, t1, d.status), IntsOf(s2, t2, d.mergeParent),
              StringsOf(s3, t3, d.extStatus)),
     r3)
  }

  /** What a decoding of `e`'s encoding restores into the contents `d`:
      the paths and the flag always, the status unless only modified, the
      merge parents unless skipped, the extended status unless empty. */
  function Restored(e: FileData, d: FileData): FileData
  {
    FileData(e.pathsIdx, e.onlyModified,
             if e.onlyModified then d.status else e.status,
             if SkipsMergeParent(e) then d.mergeParent else e.mergeParent,
             if e.extStatus == [] then d.extStatus else e.extStatus)
  }

  /** The encoding followed by more tokens, regrouped section by section. */
  lemma Regroup<T>(x: T, a: seq<T>, b: seq<T>, c: seq<T>, after: seq<T>)
    ensures [x] + a + b + c + after == [x] + (a + (b + (c + after)))
    ensures ([x] + (a + (b + (c + after))))[1..] == a + (b + (c + after))
  {
  }

  /** Appending the parts one after the other appends their concatenation. */
  lemma Append<T>(ts: seq<T>, x: T, a: seq<T>, b: seq<T>, c: seq<T>)
    ensures ts + [x] + a + b + c == ts + ([x] + a + b + c)
  {
  }

  /** Decoding an encoding, whatever follows it, consumes exactly the
      encoding and restores what `Restored` says. */
  lemma DecodeEncode(e: FileData, d: FileData, after: seq<Token>, ok: bool)
    ensures Decode(Reader(Encode(e) + after, ok), d) == (Restored(e, d), Reader(after, ok))
  {
    var A := Section(!e.onlyModified, Statuses(e.status));
    var B := Section(!SkipsMergeParent(e), Ints(e.mergeParent));
    var C := Section(e.extStatus != [], Strings(e.extStatus));
    Regroup(Bytes(e.pathsIdx), A, B, C, after);
    assert Take(Reader(Encode(e) + after, ok), BytesKind) == (Some(Bytes(e.pathsIdx)), Reader(A + (B + (C + after)), ok));
    SectionRoundTrip(!e.onlyModified, Statuses(e.status), B + (C + after), ok);
    SectionRoundTrip(!SkipsMergeParent(e), Ints(e.mergeParent), C + after, ok);
    SectionRoundTrip(e.extStatus != [], Strings(e.extStatus), after, ok);
  }

  /** Into a fresh RevFile, a cached record comes back as it was written,
      except that the status of an only-modified record and a skipped
      merge-parent vector come back empty; the encoding is used up. */
  lemma RoundTrip(e: FileData)
    ensures Decode(Reader(Encode(e), true), Fresh)
         == (e.(status := if e.onlyModified then [] else e.status,
                mergeParent := if SkipsMergeParent(e) then [] else e.mergeParent),
             Reader([], true))
  {
    DecodeEncode(e, Fresh, [], true);
    assert Encode(e) + [] == Encode(e);
  }

  /** Encoding loses nothing but an only-modified status and a skipped
      merge-parent vector: two records that agree elsewhere encode alike,
      and records that encode alike agree elsewhere. */
  lemma EncodeInjective(e: FileData, f: FileData)
    ensures Encode(e) == Encode(f) <==>
      && e.pathsIdx == f.pathsIdx && e.onlyModified == f.onlyModified
      && (e.onlyModified || e.status == f.status)
      && SkipsMergeParent(e) == SkipsMergeParent(f)
      && (SkipsMergeParent(e) || e.mergeParent == f.mergeParent)
      && e.extStatus == f.extStatus
  {
    if Encode(e) == Encode(f) {
      RoundTrip(e);
      RoundTrip(f);
    }
  }

  // ---------------------------------------------------------------------
  // RevFile
  // ---------------------------------------------------------------------

  class RevFile {
    var pathsIdx: seq<int>
    var onlyModified: bool
    var status: seq<bv32>
    var mergeParent: seq<int>
    var extStatus: seq<string>

    ghost function Contents(): FileData
      reads this
    {
      FileData(pathsIdx, onlyModified, status, mergeParent, extStatus)
    }

    /** RevFile::RevFile: no files yet, and only modified ones. */
    constructor ()
      ensures Contents() == Fresh
    {
      pathsIdx, onlyModified, status, mergeParent, extStatus := [], true, [], [], [];
    }

    /** RevFile::count: the byte size of `pathsIdx` over two ints, one pair
        per file. */
    function Count(): (n: nat)
      reads this
      ensures 2 * n <= |pathsIdx| < 2 * n + 2
    {
      (IntSize * |pathsIdx|) / (IntSize * 2)
    }

    /** RevFile::dirAt: the directory index of file `idx`.  The source reads
        the raw int array unchecked, so `idx` must lie inside it. */
    function DirAt(idx: nat): int
      reads this
      requires idx < |pathsIdx|
    {
      pathsIdx[idx]
    }

    /** RevFile::nameAt: the name index of file `idx`, in the second half. */
    function NameAt(idx: nat): int
      reads this
      requires Count() + idx < |pathsIdx|
    {
      pathsIdx[Count() + idx]
    }

    /** RevFile::statusCmp: whether file `idx` has a status in `sf`; every
        file counts as modified while `onlyModified` holds.  QVector::at
        demands a valid index otherwise. */
    function StatusCmp(idx: int, sf: bv32): (r: bool)
      reads this
      requires onlyModified || 0 <= idx < |status|
      ensures r ==> sf != 0
      ensures onlyModified ==> (r <==> sf & Modified != 0)
    {
      ((if onlyModified then Modified else status[idx]) & sf) != 0
    }

    /** RevFile::extendedStatus: the rename/copy note of file `idx`; the
        list may be shorter than the file count, and a file past its end has
        no note.  QList::at demands a non-negative index when the list is
        used. */
    function ExtendedStatus(idx: int): (r: string)
      reads this
      requires extStatus == [] || 0 <= idx
      ensures 0 <= idx < |extStatus| ==> r == extStatus[idx]
      ensures idx >= |extStatus| ==> r == ""
      ensures extStatus == [] ==> r == ""
    {
      if extStatus != [] && idx < |extStatus| then extStatus[idx] else ""
    }

    /** RevFile::operator>>: write the record to the cache stream. */
    method WriteTo(s: DataStream)
      modifies s
      ensures s.tokens == old(s.tokens) + Encode(Contents())
      ensures s.ok == old(s.ok)
    {
      ghost var ts := s.tokens;
      s.Write(Bytes(pathsIdx));
      // skip the common case of only modified files
      var isEmpty := onlyModified;
      WriteSection(s, !isEmpty, Statuses(status));
      ghost var A := Section(!isEmpty, Statuses(status));
      // skip the common case of just one parent
      isEmpty := mergeParent == [] || mergeParent[|mergeParent| - 1] == 1;
      WriteSection(s, !isEmpty, Ints(mergeParent));
      ghost var B := Section(!isEmpty, Ints(mergeParent));
      // skip the common case of no renames or copies
      isEmpty := extStatus == [];
      WriteSection(s, !isEmpty, Strings(extStatus));
      ghost var C := Section(!isEmpty, Strings(extStatus));
      Append(ts, Bytes(pathsIdx), A, B, C);
    }

    /** RevFile::operator<<: read the record back from the cache stream into
        this RevFile. */
    method ReadFrom(s: DataStream)
      modifies this, s
      ensures (Contents(), s.Reading()) == Decode(old(s.Reading()), old(Contents()))
    {
      var t := s.Read(BytesKind);
      pathsIdx := BytesOf(t);
      var skipped;
      skipped, t := ReadSectionOf(s, StatusesKind);
      onlyModified := skipped;
      status := StatusesOf(skipped, t, status);
      skipped, t := ReadSectionOf(s, IntsKind);
      mergeParent := IntsOf(skipped, t, mergeParent);
      skipped, t := ReadSectionOf(s, StringsKind);
      extStatus := StringsOf(skipped, t, extStatus);
    }
  }

  /** stream << (quint32)!present, then the field when present. */
  method WriteSection(s: DataStream, present: bool, t: Token)
    modifies s
    ensures s.tokens == old(s.tokens) + Section(present, t)
    ensures s.ok == old(s.ok)
  {
    s.Write(Word(if present then 0 else 1));
    if present {
      s.Write(t);
    }
  }

  /** stream >> flag, then stream >> field when the flag is 0. */
  method ReadSectionOf(s: DataStream, k: Kind) returns (skipped: bool, t: Option<Token>)
    modifies s
    ensures (skipped, t, s.Reading()) == ReadSection(old(s.Reading()), k)
  {
    var flag := s.Read(WordKind);
    skipped := flag.Some? && flag.value.Word? && flag.value.w != 0;
    t := None;
    if !skipped {
      t := s.Read(k);
    }
  }

  /** The layout of `pathsIdx`: the directory indices of all files, then
      their name indices. */
  function Paths(dirs: seq<int>, names: seq<int>): (p: seq<int>)
    requires |dirs| == |names|
    ensures |p| == 2 * |dirs|
    ensures forall i :: 0 <= i < |dirs| ==> p[i] == dirs[i] && p[|dirs| + i] == names[i]
  {
    dirs + names
  }

  /** A RevFile whose `pathsIdx` was laid out from directory and name
      indices has one file per pair and gives back each pair. */
  lemma PathsLayout(rf: RevFile, dirs: seq<int>, names: seq<int>)
    requires |dirs| == |names| && rf.pathsIdx == Paths(dirs, names)
    ensures rf.Count() == |dirs|
    ensures forall i :: 0 <= i < |dirs| ==> rf.DirAt(i) == dirs[i] && rf.NameAt(i) == names[i]
  {
  }

  /** Conversely, every `pathsIdx` of even length is such a layout, of the
      pairs the accessors read. */
  lemma PathsOfPairs(rf: RevFile)
    requires |rf.pathsIdx| % 2 == 0
    ensures rf.pathsIdx == Paths(seq(rf.Count(), i requires 0 <= i < rf.Count() reads rf => rf.DirAt(i)),
                                 seq(rf.Count(), i requires 0 <= i < rf.Count() reads rf => rf.NameAt(i)))
  {
  }
}
