/**
  The streaming commit-record indexer: Rev::indexData and the Rev accessors.

  A record in the history stream is laid out as

    [log size <N>\n] <marker> <40-char sha> X [<40-char parent> <sep>]* X \n
    <committer>\n <author>\n <author date>\n <log text> [<diff>] \0

  The indexer walks it once, records field offsets and writes NUL
  terminators into the buffer in place.  `Index` is the specification of one
  call: its return code, the offsets it leaves behind and the positions where
  it wrote a NUL, all as functions of the buffer contents before the call.
 */
module RevIndex {
  import opened Wrappers
  import opened ByteArray

  const ShaLength := 40          // a sha key
  const ShaEndlLength := 41      // a sha key + separator
  const ShaXEndlLength := 42     // a sha key + X marker + \n
  const FinalOutputMarker := 'F'
  const LogSizeMarker := 'l'
  const LogSizeStrLength := 9    // "log size "
  const DiffMarker := "\ndiff "

  /** Result: wait for more data (also the parser's error value). */
  const Incomplete := -1
  /** Result: a "Final output" line the caller handles itself. */
  const FinalOutput := -2

  /** The offset fields of a Rev that indexing assigns. */
  datatype Spans = Spans(
    shaStart: int, parentsCnt: int,
    comStart: int, autStart: int, autDateStart: int,
    sLogStart: int, sLogLen: int, lLogStart: int, lLogLen: int,
    diffStart: int, diffLen: int,
    indexed: bool)

  const Unset := Spans(0, 0, 0, 0, 0, 0, 0, 0, 0, 0, 0, false)

  /** One call of indexData: the value returned and the offsets afterwards. */
  datatype Outcome = Outcome(code: int, spans: Spans)

  /** What precedes the sha: the declared log size (0 when absent) and the
      position of the sha. */
  datatype Header = Header(logSize: int, shaStart: int)
  {
    /** Where the declared log ends. */
    function LogEnd(): int { shaStart - 1 + logSize }
  }

  /** The result of the parent scan: how many parent chunks were counted,
      where the index stopped, and where it wrote a NUL. */
  datatype ParentScan = ParentScan(count: nat, end: int, nuls: set<int>)
  {
    /** Where indexing goes on after the scan: the newline of the sha line. */
    function Next(): int { end + 1 }
  }

  /** The start and length of the short and the long log. */
  datatype LogSpans = LogSpans(sLogStart: int, sLogLen: int, lLogStart: int, lLogLen: int)

  /** Position of the separator after the `i`-th 41-byte chunk that follows `base`. */
  function Slot(base: int, i: int): int
  {
    base + ShaEndlLength * i
  }

  /** Where parent `i` starts, for a record whose sha starts at `shaStart`. */
  function ParentAt(shaStart: int, i: int): int
  {
    shaStart + ShaEndlLength + ShaEndlLength * i
  }

  // ---------------------------------------------------------------------
  // The steps of indexData, as functions of the buffer contents
  // ---------------------------------------------------------------------

  /** The optional "log size N" line and the boundary marker.  None when the
      digits are not followed by a newline inside the buffer. */
  function ReadHeader(B: seq<char>, start: nat): (h: Option<Header>)
    requires start + ShaXEndlLength <= |B| - 1
    ensures h.Some? && B[start] != LogSizeMarker ==> h.value == Header(0, start + 1)
    ensures h.Some? && B[start] == LogSizeMarker ==>
      var nl := h.value.shaStart - 2;
      && start + LogSizeStrLength <= nl < |B| && B[nl] == '\n'
      && (forall k :: start + LogSizeStrLength <= k < nl ==> B[k] != '\n')
      && h.value.logSize == DigitsValue(B[start + LogSizeStrLength..nl])
    ensures h.None? <==>
      B[start] == LogSizeMarker && forall k :: start + LogSizeStrLength <= k < |B| ==> B[k] != '\n'
  {
    if B[start] == LogSizeMarker then
      var nl := IndexOf(B, '\n', start + LogSizeStrLength);
      if nl == -1 then None
      else Some(Header(DigitsValue(B[start + LogSizeStrLength..nl]), nl + 2))
    else Some(Header(0, start + 1))
  }

  /** The do-while loop over parent chunks, entered with `idx` on the slot
      after the previous sha.  It stops at the first chunk followed by a
      newline, or when the next slot is too close to the end of the buffer. */
  function ParentLoop(B: seq<char>, idx: nat): (p: ParentScan)
    decreases |B| - idx
    ensures p.count >= 1 && p.end == Slot(idx, p.count)
  {
    var j := idx + ShaEndlLength;
    if j + 1 >= |B| - 1 then ParentScan(1, j, {})
    else if B[j + 1] == '\n' then ParentScan(1, j, {j})
    else
      var q := ParentLoop(B, j);
      ParentScan(q.count + 1, q.end, {j} + q.nuls)
  }

  /** What the parent loop has seen when it stops: every chunk but the last is
      followed by something other than a newline and got its NUL; the last
      one got its NUL, and is followed by a newline, unless the loop stopped
      for lack of data. All NULs sit on chunk separators. */
  lemma {:induction false} ParentLoopShape(B: seq<char>, idx: nat)
    decreases |B| - idx
    ensures var p := ParentLoop(B, idx);
      && (forall q :: q in p.nuls ==> idx < q <= p.end && (q - idx) % ShaEndlLength == 0)
      && (p.end in p.nuls <==> p.end + 1 < |B| - 1)
      && (forall i :: 1 <= i < p.count ==>
            Slot(idx, i) + 1 < |B| - 1 && Slot(idx, i) in p.nuls && B[Slot(idx, i) + 1] != '\n')
      && (p.end + 1 < |B| - 1 ==> B[p.end + 1] == '\n')
  {
    var j := idx + ShaEndlLength;
    if j + 1 < |B| - 1 && B[j + 1] != '\n' {
      ParentLoopShape(B, j);
      var q := ParentLoop(B, j);
      assert forall i :: 2 <= i <= q.count ==> Slot(idx, i) == Slot(j, i - 1);
      assert Slot(idx, 1) == j;
    }
  }

  /** The parent scan from the slot `x` after the commit's own sha: an initial
      revision (no parents) is recognised by a newline two places ahead. */
  function ScanParents(B: seq<char>, x: nat): (p: ParentScan)
    requires x + 2 < |B|
    ensures x < p.end
    ensures p.count == 0 <==> B[x + 2] == '\n'
    ensures p.count == 0 ==> p.end == x + 1 && p.nuls == {}
    ensures p.count > 0 ==> p == ParentLoop(B, x)
  {
    if B[x + 2] == '\n' then ParentScan(0, x + 1, {}) else ParentLoop(B, x)
  }

  /** Where the record ends: the first NUL after the sha line when a diff is
      wanted or no log size was given, the end of the declared log otherwise.
      -1 when no NUL has arrived yet. */
  function RecordEnd(B: seq<char>, idx: nat, logSize: int, logEnd: int, withDiff: bool): (r: int)
    requires logEnd <= |B| - 1
    ensures r <= |B| - 1
    ensures withDiff || logSize == 0 ==>
      var from := (if logEnd > idx then logEnd - 1 else idx) + 1;
      && (r == -1 <==> forall k :: from <= k < |B| ==> B[k] != '\0')
      && (r != -1 ==> idx < from <= r && B[r] == '\0' && forall k :: from <= k < r ==> B[k] != '\0')
    ensures !(withDiff || logSize == 0) ==> r == logEnd
  {
    if withDiff || logSize == 0 then
      IndexOf(B, '\0', (if logEnd > idx then logEnd - 1 else idx) + 1)
    else logEnd
  }

  /** The diff span (start, length): it starts right after the end of the
      declared log, or after the newline of the first "\ndiff " marker, and it
      runs up to the record end; (0, 0) without a diff. */
  function DiffSpan(B: seq<char>, from: nat, logSize: int, logEnd: int, revEnd: int,
                    withDiff: bool): (d: (int, int))
    ensures d == (0, 0) || (d.0 <= revEnd && d.1 == revEnd - d.0)
    ensures !withDiff ==> d == (0, 0)
    ensures withDiff && logSize == 0 && d != (0, 0) ==>
      from + 1 <= d.0 && OccursAt(B, DiffMarker, d.0 - 1) &&
      forall k :: from <= k < d.0 - 1 ==> !OccursAt(B, DiffMarker, k)
    ensures withDiff && logSize == 0 ==>
      (d != (0, 0) <==> exists k :: from <= k < revEnd && OccursAt(B, DiffMarker, k))
    ensures withDiff && logSize != 0 && logEnd != -1 ==>
      d == if logEnd < revEnd then (logEnd + 1, revEnd - (logEnd + 1)) else (0, 0)
  {
    if !withDiff then (0, 0)
    else
      var ds := if logSize != 0 then logEnd else IndexOfSeq(B, DiffMarker, from);
      if ds != -1 && ds < revEnd then (ds + 1, revEnd - (ds + 1)) else (0, 0)
  }

  /** The log split, with the trailing-newline strip guarded by a non-empty
      short log (see SplitLogAsWritten for the unguarded form). */
  function SplitLog(B: seq<char>, sLogStart: nat, logEnd: int): (l: LogSpans)
    requires logEnd <= |B|
  {
    if logEnd < sLogStart then LogSpans(0, 0, 0, 0)
    else
      var nl := IndexOf(B, '\n', sLogStart);
      if nl != -1 && nl < logEnd - 1 then
        LogSpans(sLogStart, nl - sLogStart, nl, logEnd - nl)
      else
        var len := logEnd - sLogStart;
        LogSpans(sLogStart, if len > 0 && B[sLogStart + len - 1] == '\n' then len - 1 else len, 0, 0)
  }

  /** What the log split means: an empty window gives no logs; otherwise the
      short log is the first line of the window without its newline, and the
      long log, present exactly when a newline comes before the window's last
      byte, is the rest of the window from that newline on.  Without a long
      log the short log runs to the end of the window, less one trailing
      newline. */
  lemma SplitLogSpans(B: seq<char>, sLogStart: nat, logEnd: int)
    requires logEnd <= |B|
    ensures var l := SplitLog(B, sLogStart, logEnd);
      && (logEnd < sLogStart ==> l == LogSpans(0, 0, 0, 0))
      && (sLogStart <= logEnd ==>
        && l.sLogStart == sLogStart
        && 0 <= l.sLogLen && sLogStart + l.sLogLen <= logEnd
        && (forall k :: sLogStart <= k < sLogStart + l.sLogLen ==> B[k] != '\n')
        && (l.lLogLen != 0 <==> exists k :: sLogStart <= k < logEnd - 1 && B[k] == '\n')
        && (l.lLogLen != 0 ==>
              l.lLogStart == sLogStart + l.sLogLen && B[l.lLogStart] == '\n' &&
              l.lLogStart + l.lLogLen == logEnd && l.lLogLen >= 2)
        && (l.lLogLen == 0 ==>
              l.lLogStart == 0 &&
              (l.sLogLen == logEnd - sLogStart ||
               (l.sLogLen == logEnd - sLogStart - 1 && B[logEnd - 1] == '\n'))))
  {
  }

  /** The log split exactly as written in the source: the trailing-newline
      test also runs on an empty short log, and then inspects the byte just
      before it. */
  function SplitLogAsWritten(B: seq<char>, sLogStart: nat, logEnd: int): (l: LogSpans)
    requires 1 <= sLogStart && logEnd <= |B|
    ensures l.lLogLen != 0 || sLogStart > logEnd || sLogStart + l.sLogLen >= logEnd - 1
  {
    if logEnd < sLogStart then LogSpans(0, 0, 0, 0)
    else
      var nl := IndexOf(B, '\n', sLogStart);
      if nl != -1 && nl < logEnd - 1 then
        LogSpans(sLogStart, nl - sLogStart, nl, logEnd - nl)
      else
        var len := logEnd - sLogStart;
        LogSpans(sLogStart, if B[sLogStart + len - 1] == '\n' then len - 1 else len, 0, 0)
  }

  /** The split as written differs from the guarded one in one case only:
      an empty window right after a newline, where the short log length is
      -1 instead of 0. */
  lemma SplitLogDivergence(B: seq<char>, sLogStart: nat, logEnd: int)
    requires 1 <= sLogStart && logEnd <= |B|
    ensures SplitLogAsWritten(B, sLogStart, logEnd) ==
      if logEnd == sLogStart && B[sLogStart - 1] == '\n' then SplitLog(B, sLogStart, logEnd).(sLogLen := -1)
      else SplitLog(B, sLogStart, logEnd)
  {
  }

  /** An empty log window right after the newline of the date line (a record
      with no log text): as written, the short log gets length -1; the
      guarded split gives it length 0. */
  lemma EmptyLogAsWritten(B: seq<char>, sLogStart: nat)
    requires 1 <= sLogStart <= |B| && B[sLogStart - 1] == '\n'
    ensures SplitLogAsWritten(B, sLogStart, sLogStart) == LogSpans(sLogStart, -1, 0, 0)
    ensures SplitLog(B, sLogStart, sLogStart) == LogSpans(sLogStart, 0, 0, 0)
  {
  }

  /** The ends of the committer, author and author date lines that start
      at `from`; -1 for a line whose newline has not arrived, and for every
      line after it. */
  function HeaderLineEnds(B: seq<char>, from: nat): (e: (int, int, int))
    ensures e.0 == IndexOf(B, '\n', from)
    ensures e.1 == if e.0 == -1 then -1 else IndexOf(B, '\n', e.0 + 1)
    ensures e.2 == if e.1 == -1 then -1 else IndexOf(B, '\n', e.1 + 1)
  {
    var e1 := IndexOf(B, '\n', from);
    var e2 := if e1 == -1 then -1 else IndexOf(B, '\n', e1 + 1);
    (e1, e2, if e2 == -1 then -1 else IndexOf(B, '\n', e2 + 1))
  }

  /** The committer, author and date line starts recorded while their
      newlines are searched for: each line start is taken once the line
      before it is found to end. */
  function HeaderSpans(idx: nat, e1: int, e2: int, f: Spans): Spans
  {
    if e1 == -1 then f.(comStart := idx + 1)
    else if e2 == -1 then f.(comStart := idx + 1, autStart := e1 + 1)
    else f.(comStart := idx + 1, autStart := e1 + 1, autDateStart := e2 + 1)
  }

  /** Committer, author and date lines, the diff and the log split: the part
      of a full (non-quick) indexing after the record end is known. */
  function Details(B: seq<char>, idx: nat, logSize: int, logEnd: int, revEnd: int,
                   withDiff: bool, f: Spans): (o: Outcome)
    requires logEnd <= |B| - 1 && revEnd <= |B| - 1
  {
    var e := HeaderLineEnds(B, idx + 1);
    var g := HeaderSpans(idx, e.0, e.1, f);
    if e.2 == -1 then Outcome(Incomplete, g)
    else Outcome(revEnd + 1, LogAndDiff(B, e.2 + 1, logSize, logEnd, revEnd, withDiff, g))
  }

  /** The diff span and the log split of a record whose log text starts at
      `sLogStart`; the result marks the Rev as indexed. */
  function LogAndDiff(B: seq<char>, sLogStart: nat, logSize: int, logEnd: int, revEnd: int,
                      withDiff: bool, f: Spans): (g: Spans)
    requires logEnd <= |B| - 1 && revEnd <= |B| - 1
  {
    var d := DiffSpan(B, sLogStart, logSize, logEnd, revEnd, withDiff);
    var logEnd' := if logSize == 0 then (if d.0 != 0 then d.0 else revEnd) else logEnd;
    var l := SplitLog(B, sLogStart, logEnd');
    f.(sLogStart := l.sLogStart, sLogLen := l.sLogLen, lLogStart := l.lLogStart, lLogLen := l.lLogLen,
       diffStart := d.0, diffLen := d.1, indexed := true)
  }

  /** The NULs the indexing writes once the sha position and the log end were
      found valid: one after the sha, one after each parent it steps over. */
  function BodyNuls(B: seq<char>, h: Header): set<int>
    requires 0 <= h.shaStart && h.shaStart + ShaXEndlLength <= |B| - 1
  {
    {h.shaStart + ShaLength} + ScanParents(B, h.shaStart + ShaLength).nuls
  }

  /** Everything after the sha position and the log end were found valid:
      the parent scan, then the rest on the buffer as the scan left it. */
  function IndexBody(B: seq<char>, quick: bool, withDiff: bool, f: Spans, h: Header): (o: Outcome)
    requires 0 <= h.shaStart && h.shaStart + ShaXEndlLength <= |B| - 1
    requires h.LogEnd() <= |B| - 1
  {
    var ps := ScanParents(B, h.shaStart + ShaLength);
    AfterParents(WithNuls(B, BodyNuls(B, h)), ps.Next(), quick, withDiff, h.logSize, h.LogEnd(),
                 f.(parentsCnt := ps.count))
  }

  /** The record end, then (unless quick without a diff) the details, with
      the index `idx` on the newline of the sha line. */
  function AfterParents(B: seq<char>, idx: nat, quick: bool, withDiff: bool, logSize: int, logEnd: int,
                        f: Spans): (o: Outcome)
    requires logEnd <= |B| - 1
  {
    var revEnd := RecordEnd(B, idx, logSize, logEnd, withDiff);
    if revEnd == -1 then Outcome(Incomplete, f)
    else if quick && !withDiff then Outcome(revEnd + 1, f)
    else Details(B, idx, logSize, logEnd, revEnd, withDiff, f)
  }

  /** The header of a record whose sha line and declared log fit in the
      buffer; None when indexing stops before touching the buffer. */
  function Prelude(B: seq<char>, start: nat): (h: Option<Header>)
    ensures h.Some? ==>
      && 1 <= h.value.shaStart && h.value.shaStart + ShaXEndlLength <= |B| - 1
      && h.value.LogEnd() <= |B| - 1
  {
    var last := |B| - 1;
    if start + ShaXEndlLength > last || B[start] == FinalOutputMarker then None
    else
      match ReadHeader(B, start)
      case None => None
      case Some(h) =>
        if h.shaStart + ShaXEndlLength > last || h.LogEnd() > last then None
        else Some(h)
  }

  /** Rev::indexData(quick, withDiff) on a buffer holding `B`, for a record
      starting at `start`, with the offsets `f` from before the call. */
  function Index(B: seq<char>, start: nat, quick: bool, withDiff: bool, f: Spans): (o: Outcome)
  {
    var last := |B| - 1;
    if start + ShaXEndlLength > last then Outcome(Incomplete, f)
    else if B[start] == FinalOutputMarker then
      Outcome(if IndexOf(B, '\n', start) != -1 then FinalOutput else Incomplete, f)
    else
      match ReadHeader(B, start)
      case None => Outcome(Incomplete, f)
      case Some(h) =>
        if h.shaStart + ShaXEndlLength > last then Outcome(Incomplete, f)
        else if h.LogEnd() > last then Outcome(Incomplete, f.(shaStart := h.shaStart))
        else IndexBody(B, quick, withDiff, f.(shaStart := h.shaStart), h)
  }

  /** The positions where Rev::indexData writes a NUL into the buffer. */
  function Written(B: seq<char>, start: nat): set<int>
  {
    match Prelude(B, start)
    case None => {}
    case Some(h) => BodyNuls(B, h)
  }

  // ---------------------------------------------------------------------
  // The loops of indexData, on the buffer itself
  // ---------------------------------------------------------------------

  /** The digit loop of the "log size" line: from `from`, accumulate one
      digit per character up to the first newline; `next` is the position
      after it.  `found` is false when no newline follows inside the buffer. */
  method ReadLogSize(b: array<char>, from: nat) returns (logSize: int, next: int, found: bool)
    requires from <= b.Length
    ensures var nl := IndexOf(b[..], '\n', from);
      && found == (nl != -1)
      && (found ==> next == nl + 1 && logSize == DigitsValue(b[from..nl]))
  {
    logSize := 0;
    next := from;
    while next < b.Length && b[next] != '\n'
      invariant from <= next <= b.Length
      invariant forall k :: from <= k < next ==> b[k] != '\n'
      invariant logSize == DigitsValue(b[from..next])
    {
      assert b[from..next + 1][..next - from] == b[from..next];
      logSize := logSize * 10 + (b[next] as int - '0' as int);
      next := next + 1;
    }
    found := next < b.Length;
    if found {
      next := next + 1;
    }
  }

  /** ParentLoop one step at a time. */
  lemma ParentLoopStep(B: seq<char>, idx: nat)
    ensures var j := idx + ShaEndlLength;
      var p := ParentLoop(B, idx);
      && (j + 1 >= |B| - 1 ==> p == ParentScan(1, j, {}))
      && (j + 1 < |B| - 1 && B[j + 1] == '\n' ==> p == ParentScan(1, j, {j}))
      && (j + 1 < |B| - 1 && B[j + 1] != '\n' ==>
            var q := ParentLoop(B, j);
            p.count == q.count + 1 && p.end == q.end && p.nuls == {j} + q.nuls)
  {
  }

  /** The header phase of indexData on the buffer: the optional "log size"
      line, then the boundary marker. */
  method ReadHeaderOf(b: array<char>, start: nat) returns (h: Option<Header>)
    requires start + ShaXEndlLength <= b.Length - 1
    ensures h == ReadHeader(b[..], start)
  {
    if b[start] == LogSizeMarker {
      var logSize, next, found := ReadLogSize(b, start + LogSizeStrLength);
      if !found {
        return None;
      }
      return Some(Header(logSize, next + 1));
    }
    return Some(Header(0, start + 1));
  }

  /** The parent scan on the buffer: counts the parent chunks after the slot
      `x` and writes a NUL after each one it completes. */
  method ScanParentsInPlace(b: array<char>, x: nat) returns (cnt: nat, idx: int)
    requires x + 2 < b.Length
    modifies b
    ensures var p := ScanParents(old(b[..]), x);
      cnt == p.count && idx == p.end && b[..] == WithNuls(old(b[..]), p.nuls)
  {
    if b[x + 2] == '\n' {
      cnt, idx := 0, x + 1;
      assert b[..] == WithNuls(b[..], {});
    } else {
      cnt, idx := ParentLoopInPlace(b, x);
    }
  }

  /** The do-while loop of the parent scan, on the buffer. */
  method ParentLoopInPlace(b: array<char>, x: nat) returns (cnt: nat, idx: int)
    modifies b
    ensures var p := ParentLoop(old(b[..]), x);
      cnt == p.count && idx == p.end && b[..] == WithNuls(old(b[..]), p.nuls)
  {
    ghost var B := b[..];
    ghost var written: set<int> := {};
    assert b[..] == WithNuls(B, written);
    idx := x;
    cnt := 0;
    while true
      invariant idx == Slot(x, cnt)
      invariant b[..] == WithNuls(B, written)
      invariant forall q :: q in written ==> q <= idx
      invariant ParentLoop(B, x).count == cnt + ParentLoop(B, idx).count
      invariant ParentLoop(B, x).end == ParentLoop(B, idx).end
      invariant ParentLoop(B, x).nuls == written + ParentLoop(B, idx).nuls
      decreases |B| - idx
    {
      ParentLoopStep(B, idx);
      cnt := cnt + 1;
      idx := idx + ShaEndlLength;
      if idx + 1 >= b.Length - 1 {
        break;
      }
      WithNulsAdd(B, written, idx);
      b[idx] := '\0';
      written := written + {idx};
      if b[idx + 1] == '\n' {
        break;
      }
    }
  }

  // ---------------------------------------------------------------------
  // Reads past the NULs: the later steps only look beyond the sha line
  // ---------------------------------------------------------------------

  lemma {:induction false} ParentLoopAgree(s: seq<char>, t: seq<char>, idx: nat)
    requires AgreeFrom(s, t, idx + 1)
    ensures ParentLoop(s, idx) == ParentLoop(t, idx)
    decreases |s| - idx
  {
    var j := idx + ShaEndlLength;
    if j + 1 < |s| - 1 && s[j + 1] != '\n' {
      ParentLoopAgree(s, t, j);
    }
  }

  /** The NUL written over the place holder after the sha, then the parent
      scan; `idx` is left on the newline of the sha line. */
  method ShaAndParentsInPlace(b: array<char>, shaStart: nat, ghost h: Header) returns (cnt: nat, idx: int)
    requires h.shaStart == shaStart && shaStart + ShaXEndlLength <= b.Length - 1
    modifies b
    ensures var p := ScanParents(old(b[..]), shaStart + ShaLength);
      cnt == p.count && idx == p.Next() && b[..] == WithNuls(old(b[..]), BodyNuls(old(b[..]), h))
  {
    ghost var B := b[..];
    var x := shaStart + ShaLength;  // on the X place holder
    b[x] := '\0';  // the sha becomes a NUL-terminated string
    assert b[..] == WithNuls(B, {x});
    ghost var ps := ScanParents(B, x);
    ScanParentsAgree(b[..], B, x);
    cnt, idx := ScanParentsInPlace(b, x);
    WithNulsUnion(B, {x}, ps.nuls);
    idx := idx + 1;
  }

  lemma ScanParentsAgree(s: seq<char>, t: seq<char>, x: nat)
    requires x + 2 < |s| && AgreeFrom(s, t, x + 1)
    ensures ScanParents(s, x) == ScanParents(t, x)
  {
    if s[x + 2] != '\n' {
      ParentLoopAgree(s, t, x);
    }
  }

  lemma WithNulsUnion(s: seq<char>, a: set<int>, b: set<int>)
    ensures WithNuls(WithNuls(s, a), b) == WithNuls(s, a + b)
  {
  }

  // ---------------------------------------------------------------------
  // Rev
  // ---------------------------------------------------------------------

  /** The per-commit marks the graph and patch views keep on a Rev: the
      diff-cache, applied and unapplied flags and the three refs/branch
      colouring slots.  Indexing never touches them. */
  class RevMarks {
    var isDiffCache: bool
    var isApplied: bool
    var isUnApplied: bool
    var descRefsMaster: int
    var ancRefsMaster: int
    var descBrnMaster: int

    /** Every flag off, every slot -1. */
    predicate Initial()
      reads this
    {
      !isDiffCache && !isApplied && !isUnApplied &&
      descRefsMaster == -1 && ancRefsMaster == -1 && descBrnMaster == -1
    }

    constructor ()
      ensures Initial()
    {
      isDiffCache, isApplied, isUnApplied := false, false, false;
      descRefsMaster, ancRefsMaster, descBrnMaster := -1, -1, -1;
    }
  }

  /** One commit record inside the shared history buffer `ba`. */
  class Rev {
    const ba: array<char>
    const start: nat
    const orderIdx: int
    var shaStart: int
    var parentsCnt: int
    var comStart: int
    var autStart: int
    var autDateStart: int
    var sLogStart: int
    var sLogLen: int
    var lLogStart: int
    var lLogLen: int
    var diffStart: int
    var diffLen: int
    var indexed: bool
    const marks: RevMarks

    /** The offsets indexing assigns. */
    ghost function Offsets(): Spans
      reads this
    {
      Spans(shaStart, parentsCnt, comStart, autStart, autDateStart,
            sLogStart, sLogLen, lLogStart, lLogLen, diffStart, diffLen, indexed)
    }

    /** The member initialisers of Rev::Rev; NewRev then runs the quick indexing. */
    constructor (b: array<char>, s: nat, idx: int)
      ensures ba == b && start == s && orderIdx == idx
      ensures Offsets() == Unset && fresh(marks) && marks.Initial()
    {
      ba, start, orderIdx := b, s, idx;
      shaStart, parentsCnt := 0, 0;
      comStart, autStart, autDateStart := 0, 0, 0;
      sLogStart, sLogLen, lLogStart, lLogLen := 0, 0, 0, 0;
      diffStart, diffLen := 0, 0;
      indexed := false;
      marks := new RevMarks();
    }

    /** Rev::isBoundary: the character before the sha marks a boundary
        commit.  Qt's at() demands a valid position. */
    predicate IsBoundary()
      reads this, ba
      requires 1 <= shaStart <= ba.Length
    {
      ba[shaStart - 1] == '-'
    }

    /** Rev::parentsCount. */
    function ParentsCount(): int
      reads this
    {
      parentsCnt
    }

    /** Rev::sha: the NUL-terminated string at the sha position. */
    function Sha(): seq<char>
      reads this, ba
      requires 0 <= shaStart <= ba.Length
    {
      CStr(ba[..], shaStart)
    }

    /** Rev::parent(i): the NUL-terminated string at the i-th parent chunk. */
    function Parent(i: int): seq<char>
      reads this, ba
      requires 0 <= ParentAt(shaStart, i) <= ba.Length
    {
      CStr(ba[..], ParentAt(shaStart, i))
    }

    /** Rev::parents: the 40 characters of each of the parentsCnt chunks. */
    method Parents() returns (p: seq<seq<char>>)
      requires parentsCnt <= 0 || (0 <= shaStart && ParentAt(shaStart, parentsCnt - 1) + ShaLength <= ba.Length)
      ensures |p| == if parentsCnt < 0 then 0 else parentsCnt
      ensures forall i :: 0 <= i < |p| ==> p[i] == ba[ParentAt(shaStart, i)..ParentAt(shaStart, i) + ShaLength]
    {
      p := [];
      var idx := shaStart + ShaEndlLength;
      var i := 0;
      while i < parentsCnt
        invariant if parentsCnt > 0 then 0 <= i <= parentsCnt else i == 0
        invariant idx == ParentAt(shaStart, i)
        invariant |p| == i
        invariant forall j :: 0 <= j < i ==> p[j] == ba[ParentAt(shaStart, j)..ParentAt(shaStart, j) + ShaLength]
      {
        assert ParentAt(shaStart, i) <= ParentAt(shaStart, parentsCnt - 1);
        p := p + [ba[idx..idx + ShaLength]];
        idx := idx + ShaEndlLength;
        i := i + 1;
      }
    }

    /** Rev::setup: a full indexing, unless one has already been done. */
    method Setup()
      modifies this, ba
      ensures old(indexed) ==> Offsets() == old(Offsets()) && ba[..] == old(ba[..])
      ensures !old(indexed) ==>
        && Offsets() == Index(old(ba[..]), start, false, false, old(Offsets())).spans
        && ba[..] == WithNuls(old(ba[..]), Written(old(ba[..]), start))
    {
      if !indexed {
        var _ := IndexData(false, false);
      }
    }

    /** Rev::indexData: index the record at `start`, returning the offset of
        the next record, Incomplete or FinalOutput. */
    method IndexData(quick: bool, withDiff: bool) returns (r: int)
      modifies this, ba
      ensures var o := Index(old(ba[..]), start, quick, withDiff, old(Offsets()));
        r == o.code && Offsets() == o.spans
      ensures ba[..] == WithNuls(old(ba[..]), Written(old(ba[..]), start))
    {
      ghost var B := ba[..];
      assert B == WithNuls(B, {});
      var last := ba.Length - 1;
      if start + ShaXEndlLength > last {
        return Incomplete;
      }
      if ba[start] == FinalOutputMarker {
        return if IndexOf(ba[..], '\n', start) != -1 then FinalOutput else Incomplete;
      }
      var hd := ReadHeaderOf(ba, start);
      if hd.None? {
        // the source's digit loop would run past the end of the buffer here
        return Incomplete;
      }
      if hd.value.shaStart + ShaXEndlLength > last {
        return Incomplete;
      }
      shaStart := hd.value.shaStart;
      if hd.value.LogEnd() > last {
        return Incomplete;
      }
      r := IndexBodyData(quick, withDiff, hd.value.logSize);
    }

    /** indexData once the sha position and the log end are known to lie in
        the buffer: the parent scan, the record end, then the details. */
    method IndexBodyData(quick: bool, withDiff: bool, logSize: int) returns (r: int)
      requires 0 <= shaStart && shaStart + ShaXEndlLength <= ba.Length - 1
      requires Header(logSize, shaStart).LogEnd() <= ba.Length - 1
      modifies this, ba
      ensures var o := IndexBody(old(ba[..]), quick, withDiff, old(Offsets()), Header(logSize, old(shaStart)));
        r == o.code && Offsets() == o.spans
      ensures ba[..] == WithNuls(old(ba[..]), BodyNuls(old(ba[..]), Header(logSize, old(shaStart))))
    {
      ghost var B := ba[..];
      ghost var h := Header(logSize, shaStart);
      var cnt, idx := ShaAndParentsInPlace(ba, shaStart, h);
      var data := ba[..];
      r := AfterParentsData(data, cnt, idx, quick, withDiff, logSize, shaStart - 1 + logSize, B, h);
    }

    /** indexData from the newline of the sha line on, reading `data`: the
        buffer `B` as the parent scan left it, which counted `cnt` parents. */
    method AfterParentsData(data: seq<char>, cnt: int, idx: nat, quick: bool, withDiff: bool, logSize: int,
                            logEnd: int, ghost B: seq<char>, ghost h: Header) returns (r: int)
      requires 0 <= h.shaStart && h.shaStart + ShaXEndlLength <= |B| - 1
      requires h.LogEnd() <= |B| - 1
      requires data == WithNuls(B, BodyNuls(B, h))
      requires var ps := ScanParents(B, h.shaStart + ShaLength); cnt == ps.count && idx == ps.Next()
      requires logSize == h.logSize && logEnd == h.LogEnd()
      modifies this
      ensures var o := IndexBody(B, quick, withDiff, old(Offsets()), h);
        r == o.code && Offsets() == o.spans
    {
      parentsCnt := cnt;
      var revEnd := RecordEndOf(data, idx, logSize, logEnd, withDiff);
      if revEnd == -1 {
        return Incomplete;
      }
      if quick && !withDiff {
        return revEnd + 1;
      }
      r := IndexDetails(data, idx, logSize, logEnd, revEnd, withDiff);
    }

    /** The committer, author and date lines, then the diff and the log,
        read from the buffer contents `data`. */
    method IndexDetails(data: seq<char>, idx0: nat, logSize: int, logEnd: int, revEnd: int,
                        withDiff: bool) returns (r: int)
      requires logEnd <= |data| - 1 && revEnd <= |data| - 1
      modifies this
      ensures var o := Details(data, idx0, logSize, logEnd, revEnd, withDiff, old(Offsets()));
        r == o.code && Offsets() == o.spans
    {
      var e1, e2, e3 := LineEnds(data, idx0 + 1);
      SetHeaderLines(idx0, e1, e2);
      if e3 == -1 {
        return Incomplete;
      }
      IndexLogAndDiff(data, e3 + 1, logSize, logEnd, revEnd, withDiff);
      return revEnd + 1;
    }

    /** The committer, author and date line starts, given the ends `e1` and
        `e2` of the committer and author lines. */
    method SetHeaderLines(idx0: nat, e1: int, e2: int)
      modifies this
      ensures Offsets() == HeaderSpans(idx0, e1, e2, old(Offsets()))
    {
      comStart := idx0 + 1;
      if e1 != -1 {
        autStart := e1 + 1;
        if e2 != -1 {
          autDateStart := e2 + 1;
        }
      }
    }

    /** The diff span and the log split of a record whose log text starts at
        `idx`; marks the Rev as indexed. */
    method IndexLogAndDiff(data: seq<char>, idx: nat, logSize: int, logEnd0: int, revEnd: int,
                           withDiff: bool)
      requires logEnd0 <= |data| - 1 && revEnd <= |data| - 1
      modifies this
      ensures Offsets() == LogAndDiff(data, idx, logSize, logEnd0, revEnd, withDiff, old(Offsets()))
    {
      var dStart, dLen := DiffOf(data, idx, logSize, logEnd0, revEnd, withDiff);
      var logEnd := logEnd0;
      if logSize == 0 {
        logEnd := if dStart != 0 then dStart else revEnd;
      }
      var s0, s1, l0, l1 := LogOf(data, idx, logEnd);
      sLogStart, sLogLen, lLogStart, lLogLen := s0, s1, l0, l1;
      diffStart, diffLen := dStart, dLen;
      indexed := true;
    }
  }

  /** Rev::Rev(b, s, idx, next, withDiff): a Rev on the buffer `b` for the
      record at `s`, quick-indexed; `next` is what indexData returned. */
  method NewRev(b: array<char>, s: nat, idx: int, withDiff: bool) returns (r: Rev, next: int)
    modifies b
    ensures fresh(r) && r.ba == b && r.start == s && r.orderIdx == idx
    ensures fresh(r.marks) && r.marks.Initial()
    ensures var o := Index(old(b[..]), s, true, withDiff, Unset);
      next == o.code && r.Offsets() == o.spans
    ensures b[..] == WithNuls(old(b[..]), Written(old(b[..]), s))
  {
    r := new Rev(b, s, idx);
    next := r.IndexData(true, withDiff);
  }

  /** The newline searches for the committer, author and date lines. */
  method LineEnds(data: seq<char>, from: nat) returns (e1: int, e2: int, e3: int)
    ensures (e1, e2, e3) == HeaderLineEnds(data, from)
  {
    e1, e2, e3 := IndexOf(data, '\n', from), -1, -1;
    if e1 != -1 {
      e2 := IndexOf(data, '\n', e1 + 1);
      if e2 != -1 {
        e3 := IndexOf(data, '\n', e2 + 1);
      }
    }
  }

  /** The record-end search of indexData. */
  method RecordEndOf(data: seq<char>, idx: nat, logSize: int, logEnd: int, withDiff: bool)
    returns (revEnd: int)
    requires logEnd <= |data| - 1
    ensures revEnd == RecordEnd(data, idx, logSize, logEnd, withDiff)
  {
    if withDiff || logSize == 0 {
      revEnd := if logEnd > idx then logEnd - 1 else idx;
      revEnd := IndexOf(data, '\0', revEnd + 1);
    } else {
      revEnd := logEnd;
    }
  }

  /** The diff search of indexData. */
  method DiffOf(data: seq<char>, idx: nat, logSize: int, logEnd: int, revEnd: int, withDiff: bool)
    returns (diffStart: int, diffLen: int)
    ensures (diffStart, diffLen) == DiffSpan(data, idx, logSize, logEnd, revEnd, withDiff)
  {
    diffStart, diffLen := 0, 0;
    if withDiff {
      diffStart := if logSize != 0 then logEnd else IndexOfSeq(data, DiffMarker, idx);
      if diffStart != -1 && diffStart < revEnd {
        diffStart := diffStart + 1;
        diffLen := revEnd - diffStart;
      } else {
        diffStart := 0;
      }
    }
  }

  /** The log split of indexData. */
  method LogOf(data: seq<char>, idx: nat, logEnd: int)
    returns (sLogStart: int, sLogLen: int, lLogStart: int, lLogLen: int)
    requires logEnd <= |data|
    ensures LogSpans(sLogStart, sLogLen, lLogStart, lLogLen) == SplitLog(data, idx, logEnd)
  {
    sLogStart := idx;
    if logEnd < sLogStart {
      // no short log, no long log
      sLogStart, sLogLen := 0, 0;
      lLogStart, lLogLen := 0, 0;
    } else {
      lLogStart := IndexOf(data, '\n', sLogStart);
      if lLogStart != -1 && lLogStart < logEnd - 1 {
        sLogLen := lLogStart - sLogStart;  // without the short log's newline
        lLogLen := logEnd - lLogStart;     // the long log keeps its leading newline
      } else {
        // no long log
        sLogLen := logEnd - sLogStart;
        if sLogLen > 0 && data[sLogStart + sLogLen - 1] == '\n' {
          sLogLen := sLogLen - 1;  // without a trailing newline
        }
        lLogStart, lLogLen := 0, 0;
      }
    }
  }
}
