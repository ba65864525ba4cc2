/**
  What one call of Rev::indexData guarantees, stated about the
  specification function Index (which the method IndexData is proved to
  follow) and about the NULs it writes.
 */
module RevProperties {
  import opened Wrappers
  import opened ByteArray
  import opened RevIndex

  /** The "log size" value consists of decimal digits, as git writes it. */
  predicate DecimalLogSize(B: seq<char>, start: nat)
  {
    start < |B| && B[start] == LogSizeMarker ==>
      var nl := IndexOf(B, '\n', start + LogSizeStrLength);
      nl != -1 ==> forall k :: start + LogSizeStrLength <= k < nl ==> IsDigit(B[k])
  }

  // ---------------------------------------------------------------------
  // Early returns
  // ---------------------------------------------------------------------

  /** Fewer bytes than a sha header after `start`: wait for more data, and
      touch neither the offsets nor the buffer. */
  lemma TooShort(B: seq<char>, start: nat, quick: bool, withDiff: bool, f: Spans)
    requires start + ShaXEndlLength > |B| - 1
    ensures Index(B, start, quick, withDiff, f) == Outcome(Incomplete, f)
    ensures Written(B, start) == {}
  {
  }

  /** A "Final output" line: FinalOutput exactly when a newline follows,
      otherwise Incomplete; nothing is recorded and nothing written. */
  lemma FinalOutputLine(B: seq<char>, start: nat, quick: bool, withDiff: bool, f: Spans)
    requires start + ShaXEndlLength <= |B| - 1 && B[start] == FinalOutputMarker
    ensures var o := Index(B, start, quick, withDiff, f);
      && (o.code == FinalOutput <==> exists k :: start <= k < |B| && B[k] == '\n')
      && (o.code != FinalOutput ==> o.code == Incomplete)
      && o.spans == f
    ensures Written(B, start) == {}
  {
    var nl := IndexOf(B, '\n', start);
    if nl != -1 {
      assert start <= nl < |B| && B[nl] == '\n';
    }
  }

  /** The header checks: the record is Incomplete, with nothing written,
      when the log-size line has no newline yet, when the sha line does not
      fit, or when the declared log runs past the last byte. */
  lemma HeaderChecks(B: seq<char>, start: nat, quick: bool, withDiff: bool, f: Spans)
    requires start + ShaXEndlLength <= |B| - 1 && B[start] != FinalOutputMarker
    ensures var o := Index(B, start, quick, withDiff, f);
      match ReadHeader(B, start)
      case None => o == Outcome(Incomplete, f) && Written(B, start) == {}
      case Some(h) =>
        && (h.shaStart + ShaXEndlLength > |B| - 1 ==> o == Outcome(Incomplete, f) && Written(B, start) == {})
        && (h.shaStart + ShaXEndlLength <= |B| - 1 && h.LogEnd() > |B| - 1 ==>
              o == Outcome(Incomplete, f.(shaStart := h.shaStart)) && Written(B, start) == {})
        && (h.shaStart + ShaXEndlLength <= |B| - 1 && h.LogEnd() <= |B| - 1 ==> Prelude(B, start) == Some(h))
  {
  }

  /** Where the boundary character sits: it is the first character of the
      record, or the first after the "log size" line; the sha follows it. */
  lemma BoundaryPosition(B: seq<char>, start: nat, h: Header)
    requires Prelude(B, start) == Some(h)
    ensures h.shaStart - 1 == (if B[start] == LogSizeMarker then IndexOf(B, '\n', start + LogSizeStrLength) + 1 else start)
    ensures B[start] != LogSizeMarker ==> h.logSize == 0
  {
    assert ReadHeader(B, start) == Some(h);
    if B[start] == LogSizeMarker {
      var nl := h.shaStart - 2;
      assert IndexOf(B, '\n', start + LogSizeStrLength) == nl;
    }
  }

  // ---------------------------------------------------------------------
  // The body: parents, record end, details
  // ---------------------------------------------------------------------

  /** What Details leaves: it keeps the sha and parent fields; it either stops
      Incomplete without marking the Rev indexed, or returns revEnd + 1 with
      the Rev indexed and the three header lines delimited by newlines. */
  lemma DetailsFacts(B: seq<char>, idx: nat, logSize: int, logEnd: int, revEnd: int,
                     withDiff: bool, f: Spans)
    requires logEnd <= |B| - 1 && revEnd <= |B| - 1
    ensures var o := Details(B, idx, logSize, logEnd, revEnd, withDiff, f);
      && o.spans.shaStart == f.shaStart && o.spans.parentsCnt == f.parentsCnt
      && ((o.code == Incomplete && o.spans.indexed == f.indexed) || (o.code == revEnd + 1 && o.spans.indexed))
      && (o.code != Incomplete ==>
            var g := o.spans;
            && g.comStart == idx + 1 && g.comStart < g.autStart < g.autDateStart
            && B[g.autStart - 1] == '\n' && B[g.autDateStart - 1] == '\n'
            && (forall k :: g.comStart <= k < g.autStart - 1 ==> B[k] != '\n')
            && (forall k :: g.autStart <= k < g.autDateStart - 1 ==> B[k] != '\n'))
  {
  }

  /** Every NUL the parent scan writes lies inside the buffer, on a chunk
      separator past `x`. */
  lemma ScanNuls(B: seq<char>, x: nat)
    requires x + 2 < |B|
    ensures var p := ScanParents(B, x);
      forall q :: q in p.nuls ==> x < q <= p.end && q + 1 < |B| - 1 && (q - x) % ShaEndlLength == 0
  {
    if B[x + 2] != '\n' {
      ParentLoopShape(B, x);
      var p := ParentLoop(B, x);
      forall q | q in p.nuls
        ensures q + 1 < |B| - 1
      {
        if q != p.end {
          var i := (q - x) / ShaEndlLength;
          assert q == Slot(x, i);
          assert 1 <= i < p.count;
        }
      }
    }
  }

  /** The NULs of a body lie inside the buffer: the one after the sha and
      one on the separator after each parent the scan stepped over, all of
      them before the newline that ends the sha line. */
  lemma BodyNulsShape(B: seq<char>, h: Header)
    requires 0 <= h.shaStart && h.shaStart + ShaXEndlLength <= |B| - 1
    ensures var x := h.shaStart + ShaLength;
      && x in BodyNuls(B, h)
      && forall q :: q in BodyNuls(B, h) ==>
           x <= q < ScanParents(B, x).Next() && 0 <= q < |B| && (q - x) % ShaEndlLength == 0
  {
    ScanNuls(B, h.shaStart + ShaLength);
  }

  /** indexData writes only inside the buffer, and only on the sha line:
      see BodyNulsShape. */
  lemma WrittenShape(B: seq<char>, start: nat, h: Header)
    requires Prelude(B, start) == Some(h)
    ensures Written(B, start) == BodyNuls(B, h)
  {
  }

  /** Once the header checks passed, Index is the body with the sha
      position recorded. */
  lemma IndexIsBody(B: seq<char>, start: nat, quick: bool, withDiff: bool, f: Spans, h: Header)
    requires Prelude(B, start) == Some(h)
    ensures Index(B, start, quick, withDiff, f) == IndexBody(B, quick, withDiff, f.(shaStart := h.shaStart), h)
  {
    assert ReadHeader(B, start) == Some(h);
  }

  /** A body is the parent scan followed by AfterParents on the buffer with
      the NULs in place. */
  lemma BodyIsAfterParents(B: seq<char>, quick: bool, withDiff: bool, g: Spans, h: Header)
    requires 0 <= h.shaStart && h.shaStart + ShaXEndlLength <= |B| - 1 && h.LogEnd() <= |B| - 1
    ensures IndexBody(B, quick, withDiff, g, h) ==
      AfterParents(WithNuls(B, BodyNuls(B, h)), ScanParents(B, h.shaStart + ShaLength).Next(), quick, withDiff,
                   h.logSize, h.LogEnd(), g.(parentsCnt := ScanParents(B, h.shaStart + ShaLength).count))
  {
  }

  /** What AfterParents leaves: the sha and parent fields as they were; no
      record end means Incomplete with nothing recorded; a quick indexing
      without a diff records nothing either; otherwise Details decides. */
  lemma AfterParentsFacts(B: seq<char>, idx: nat, quick: bool, withDiff: bool, logSize: int, logEnd: int,
                          f: Spans)
    requires logEnd <= |B| - 1
    ensures var o := AfterParents(B, idx, quick, withDiff, logSize, logEnd, f);
      var revEnd := RecordEnd(B, idx, logSize, logEnd, withDiff);
      && o.spans.shaStart == f.shaStart && o.spans.parentsCnt == f.parentsCnt
      && (revEnd == -1 ==> o == Outcome(Incomplete, f))
      && (revEnd != -1 ==> o.code == Incomplete || o.code == revEnd + 1)
      && (quick && !withDiff ==> o.spans == f)
      && (revEnd != -1 && !(quick && !withDiff) ==>
            (o.code == Incomplete && o.spans.indexed == f.indexed) || (o.code == revEnd + 1 && o.spans.indexed))
  {
    var revEnd := RecordEnd(B, idx, logSize, logEnd, withDiff);
    if revEnd != -1 && !(quick && !withDiff) {
      DetailsFacts(B, idx, logSize, logEnd, revEnd, withDiff, f);
    }
  }

  /** The parent count and the sha position survive the rest of the body. */
  lemma BodyParents(B: seq<char>, quick: bool, withDiff: bool, g: Spans, h: Header)
    requires 0 <= h.shaStart && h.shaStart + ShaXEndlLength <= |B| - 1 && h.LogEnd() <= |B| - 1
    ensures var o := IndexBody(B, quick, withDiff, g, h);
      && o.spans.shaStart == g.shaStart
      && o.spans.parentsCnt == ScanParents(B, h.shaStart + ShaLength).count
  {
    BodyIsAfterParents(B, quick, withDiff, g, h);
    var ps := ScanParents(B, h.shaStart + ShaLength);
    AfterParentsFacts(WithNuls(B, BodyNuls(B, h)), ps.Next(), quick, withDiff, h.logSize, h.LogEnd(),
                      g.(parentsCnt := ps.count));
  }

  /** The parent count: 0 exactly when the sha line ends two places after the
      sha; the sha position is recorded; both survive the rest of indexing. */
  lemma ParentsCounted(B: seq<char>, start: nat, quick: bool, withDiff: bool, f: Spans, h: Header)
    requires Prelude(B, start) == Some(h)
    ensures var o := Index(B, start, quick, withDiff, f);
      && o.spans.shaStart == h.shaStart
      && o.spans.parentsCnt == ScanParents(B, h.shaStart + ShaLength).count
      && (o.spans.parentsCnt == 0 <==> B[h.shaStart + ShaLength + 2] == '\n')
  {
    IndexIsBody(B, start, quick, withDiff, f, h);
    BodyParents(B, quick, withDiff, f.(shaStart := h.shaStart), h);
  }

  /** Beyond the sha line the buffer is as it was before the NULs went in. */
  lemma UntouchedAfterShaLine(B: seq<char>, start: nat, h: Header, k: int)
    requires Prelude(B, start) == Some(h)
    requires ScanParents(B, h.shaStart + ShaLength).Next() <= k < |B|
    ensures WithNuls(B, Written(B, start))[k] == B[k]
  {
    BodyNulsShape(B, h);
  }

  /** The record end depends only on the buffer past the index. */
  lemma RecordEndAgree(s: seq<char>, t: seq<char>, idx: nat, logSize: int, logEnd: int, withDiff: bool)
    requires logEnd <= |s| - 1 && AgreeFrom(s, t, idx + 1)
    ensures RecordEnd(s, idx, logSize, logEnd, withDiff) == RecordEnd(t, idx, logSize, logEnd, withDiff)
  {
    if withDiff || logSize == 0 {
      IndexOfAgree(s, t, '\0', (if logEnd > idx then logEnd - 1 else idx) + 1);
    }
  }

  /** The code a body returns: Incomplete when no record end was found,
      otherwise Incomplete or one past the record end as RecordEnd finds it
      on the buffer from before the NULs were written. */
  lemma BodyRecordEnd(B: seq<char>, quick: bool, withDiff: bool, g: Spans, h: Header)
    requires 0 <= h.shaStart && h.shaStart + ShaXEndlLength <= |B| - 1 && h.LogEnd() <= |B| - 1
    ensures var c := IndexBody(B, quick, withDiff, g, h).code;
      var r := RecordEnd(B, ScanParents(B, h.shaStart + ShaLength).Next(), h.logSize, h.LogEnd(), withDiff);
      (r == -1 ==> c == Incomplete) && (c == Incomplete || c == r + 1)
  {
    BodyIsAfterParents(B, quick, withDiff, g, h);
    var ps := ScanParents(B, h.shaStart + ShaLength);
    var W := WithNuls(B, BodyNuls(B, h));
    AfterParentsFacts(W, ps.Next(), quick, withDiff, h.logSize, h.LogEnd(), g.(parentsCnt := ps.count));
    BodyNulsShape(B, h);
    RecordEndAgree(W, B, ps.Next(), h.logSize, h.LogEnd(), withDiff);
  }

  /** The code indexData returns once the header checks passed: Incomplete
      when there is no record end yet, otherwise Incomplete or one past the
      record end.  RecordEnd says where that is: the first NUL past the sha
      line (and past the declared log) when a diff is wanted or no log size
      was given, the end of the declared log otherwise. */
  lemma RecordEndAt(B: seq<char>, start: nat, quick: bool, withDiff: bool, f: Spans, h: Header)
    requires Prelude(B, start) == Some(h)
    ensures var c := Index(B, start, quick, withDiff, f).code;
      var r := RecordEnd(B, ScanParents(B, h.shaStart + ShaLength).Next(), h.logSize, h.LogEnd(), withDiff);
      (r == -1 ==> c == Incomplete) && (c == Incomplete || c == r + 1)
  {
    IndexIsBody(B, start, quick, withDiff, f, h);
    BodyRecordEnd(B, quick, withDiff, f.(shaStart := h.shaStart), h);
  }

  /** The declared log size is never negative when it is decimal. */
  lemma DecimalHeader(B: seq<char>, start: nat, h: Header)
    requires DecimalLogSize(B, start) && Prelude(B, start) == Some(h)
    ensures h.logSize >= 0
  {
    assert ReadHeader(B, start) == Some(h);
    if B[start] == LogSizeMarker {
      var d := B[start + LogSizeStrLength..h.shaStart - 2];
      assert forall k :: 0 <= k < |d| ==> IsDigit(d[k]) by {
        forall k | 0 <= k < |d|
          ensures IsDigit(d[k])
        {
          assert d[k] == B[start + LogSizeStrLength + k];
        }
      }
    }
  }

  /** The result of a record past its header: with a decimal log size,
      Incomplete or a position past `start` inside the buffer. */
  lemma AdvancesPastHeader(B: seq<char>, start: nat, quick: bool, withDiff: bool, f: Spans, h: Header)
    requires DecimalLogSize(B, start) && Prelude(B, start) == Some(h)
    ensures var c := Index(B, start, quick, withDiff, f).code;
      c == Incomplete || start < c <= |B|
  {
    DecimalHeader(B, start, h);
    BoundaryPosition(B, start, h);
    RecordEndAt(B, start, quick, withDiff, f, h);
  }


  /** The result advances: when the log size is decimal, indexData returns
      Incomplete, FinalOutput on a "Final output" line, or a position past
      `start` inside the buffer (its end at most). */
  lemma Advances(B: seq<char>, start: nat, quick: bool, withDiff: bool, f: Spans)
    requires DecimalLogSize(B, start)
    ensures var c := Index(B, start, quick, withDiff, f).code;
      || c == Incomplete
      || (c == FinalOutput && start < |B| && B[start] == FinalOutputMarker)
      || start < c <= |B|
  {
    if Prelude(B, start).Some? {
      AdvancesPastHeader(B, start, quick, withDiff, f, Prelude(B, start).value);
    }
  }

  /** FinalOutput comes exactly from a complete "Final output" line, when
      the log size is decimal. */
  lemma FinalOutputExactly(B: seq<char>, start: nat, quick: bool, withDiff: bool, f: Spans)
    requires DecimalLogSize(B, start)
    ensures Index(B, start, quick, withDiff, f).code == FinalOutput <==>
      && start + ShaXEndlLength <= |B| - 1 && B[start] == FinalOutputMarker
      && exists k :: start <= k < |B| && B[k] == '\n'
  {
    if start + ShaXEndlLength > |B| - 1 {
      TooShort(B, start, quick, withDiff, f);
    } else if B[start] == FinalOutputMarker {
      FinalOutputLine(B, start, quick, withDiff, f);
    } else if Prelude(B, start).Some? {
      AdvancesPastHeader(B, start, quick, withDiff, f, Prelude(B, start).value);
    } else {
      HeaderChecks(B, start, quick, withDiff, f);
    }
  }

  /** How one indexing leaves the `indexed` flag, which was `before`: a
      quick indexing without a diff leaves it; any other sets it exactly when
      it returns a record end, a positive position. */
  predicate IndexedRule(o: Outcome, quick: bool, withDiff: bool, before: bool)
  {
    && (o.code == Incomplete || o.code > 0)
    && (quick && !withDiff ==> o.spans.indexed == before)
    && (!(quick && !withDiff) ==> (o.spans.indexed <==> before || o.code != Incomplete))
  }

  /** The `indexed` flag after the parent scan, when the declared log does
      not end before the buffer starts. */
  lemma AfterParentsIndexed(B: seq<char>, idx: nat, quick: bool, withDiff: bool, logSize: int, logEnd: int,
                            f: Spans)
    requires 0 <= logEnd <= |B| - 1
    ensures IndexedRule(AfterParents(B, idx, quick, withDiff, logSize, logEnd, f), quick, withDiff, f.indexed)
  {
    AfterParentsFacts(B, idx, quick, withDiff, logSize, logEnd, f);
  }

  /** The `indexed` flag of a body with a non-negative log size. */
  lemma BodyIndexed(B: seq<char>, quick: bool, withDiff: bool, g: Spans, h: Header)
    requires 1 <= h.shaStart && h.shaStart + ShaXEndlLength <= |B| - 1 && h.LogEnd() <= |B| - 1
    requires h.logSize >= 0
    ensures IndexedRule(IndexBody(B, quick, withDiff, g, h), quick, withDiff, g.indexed)
  {
    BodyIsAfterParents(B, quick, withDiff, g, h);
    var ps := ScanParents(B, h.shaStart + ShaLength);
    AfterParentsIndexed(WithNuls(B, BodyNuls(B, h)), ps.Next(), quick, withDiff, h.logSize, h.LogEnd(),
                        g.(parentsCnt := ps.count));
  }

  /** The `indexed` flag of a record past its header, with a decimal log size. */
  lemma IndexedAfterHeader(B: seq<char>, start: nat, quick: bool, withDiff: bool, f: Spans, h: Header)
    requires DecimalLogSize(B, start) && Prelude(B, start) == Some(h)
    ensures IndexedRule(Index(B, start, quick, withDiff, f), quick, withDiff, f.indexed)
  {
    DecimalHeader(B, start, h);
    IndexIsBody(B, start, quick, withDiff, f, h);
    BodyIndexed(B, quick, withDiff, f.(shaStart := h.shaStart), h);
  }

  /** The `indexed` flag: a quick indexing without a diff never sets it; any
      other indexing sets it exactly when it returns a record end. */
  lemma IndexedFlag(B: seq<char>, start: nat, quick: bool, withDiff: bool, f: Spans)
    requires DecimalLogSize(B, start)
    ensures var o := Index(B, start, quick, withDiff, f);
      && (quick && !withDiff ==> o.spans.indexed == f.indexed)
      && (!(quick && !withDiff) ==>
            (o.spans.indexed <==> f.indexed || (o.code != Incomplete && o.code != FinalOutput)))
  {
    if Prelude(B, start).Some? {
      IndexedAfterHeader(B, start, quick, withDiff, f, Prelude(B, start).value);
    }
  }

  // ---------------------------------------------------------------------
  // The sha and parent views after indexing
  // ---------------------------------------------------------------------

  lemma OffSlot(i: int, r: int)
    requires 1 <= r <= ShaLength
    ensures (ShaEndlLength * i + r) % ShaEndlLength != 0
  {
    assert (ShaEndlLength * i + r) % ShaEndlLength == r;
  }

  /** The sha of a body reads as the 40 characters of the sha, provided
      they hold no NUL of their own. */
  lemma BodyShaView(B: seq<char>, h: Header)
    requires 0 <= h.shaStart && h.shaStart + ShaXEndlLength <= |B| - 1
    requires forall k :: h.shaStart <= k < h.shaStart + ShaLength ==> B[k] != '\0'
    ensures CStr(WithNuls(B, BodyNuls(B, h)), h.shaStart) == B[h.shaStart..h.shaStart + ShaLength]
  {
    var s := h.shaStart;
    var W := WithNuls(B, BodyNuls(B, h));
    BodyNulsShape(B, h);
    CStrUpTo(W, s, ShaLength);
    WithNulsSlice(B, BodyNuls(B, h), s, s + ShaLength);
  }

  /** After indexing, sha() is the 40 characters of the sha, provided they
      hold no NUL of their own. */
  lemma ShaView(B: seq<char>, start: nat, h: Header)
    requires Prelude(B, start) == Some(h)
    requires forall k :: h.shaStart <= k < h.shaStart + ShaLength ==> B[k] != '\0'
    ensures CStr(WithNuls(B, Written(B, start)), h.shaStart) == B[h.shaStart..h.shaStart + ShaLength]
  {
    WrittenShape(B, start, h);
    BodyShaView(B, h);
  }

  /** The parent loop wrote a NUL right after parent chunk i. */
  lemma ChunkClosed(B: seq<char>, h: Header, i: int)
    requires 0 <= h.shaStart && h.shaStart + ShaXEndlLength <= |B| - 1
    requires var ps := ScanParents(B, h.shaStart + ShaLength);
      0 <= i < ps.count && (i < ps.count - 1 || ps.end + 1 < |B| - 1)
    ensures var p := ParentAt(h.shaStart, i);
      p + ShaLength < |B| - 1 && p + ShaLength in BodyNuls(B, h)
  {
    var x := h.shaStart + ShaLength;
    ParentLoopShape(B, x);
    assert ParentAt(h.shaStart, i) + ShaLength == Slot(x, i + 1);
  }

  /** No NUL is written inside parent chunk i. */
  lemma ChunkClear(B: seq<char>, h: Header, i: int)
    requires 0 <= h.shaStart && h.shaStart + ShaXEndlLength <= |B| - 1
    requires 0 <= i
    ensures var p := ParentAt(h.shaStart, i);
      forall k :: p <= k < p + ShaLength ==> k !in BodyNuls(B, h)
  {
    var x := h.shaStart + ShaLength;
    var p := ParentAt(h.shaStart, i);
    BodyNulsShape(B, h);
    forall k | p <= k < p + ShaLength
      ensures k !in BodyNuls(B, h)
    {
      OffSlot(i, k - p + 1);
      assert k - x == ShaEndlLength * i + (k - p + 1);
    }
  }

  /** In a body, parent chunk i reads as its 40 characters when the parent
      loop closed it with a NUL. */
  lemma BodyParentView(B: seq<char>, h: Header, i: int)
    requires 0 <= h.shaStart && h.shaStart + ShaXEndlLength <= |B| - 1
    requires var ps := ScanParents(B, h.shaStart + ShaLength);
      && 0 <= i < ps.count
      && (i < ps.count - 1 || ps.end + 1 < |B| - 1)
      && forall k :: ParentAt(h.shaStart, i) <= k < ParentAt(h.shaStart, i) + ShaLength && k < |B| ==> B[k] != '\0'
    ensures var p := ParentAt(h.shaStart, i);
      p + ShaLength < |B| && CStr(WithNuls(B, BodyNuls(B, h)), p) == B[p..p + ShaLength]
  {
    var W := WithNuls(B, BodyNuls(B, h));
    var p := ParentAt(h.shaStart, i);
    ChunkClosed(B, h, i);
    ChunkClear(B, h, i);
    CStrUpTo(W, p, ShaLength);
    WithNulsSlice(B, BodyNuls(B, h), p, p + ShaLength);
  }

  /** After indexing, parent(i) is the 40 characters of the i-th parent
      chunk, for every chunk the parent loop closed with a NUL: all of them
      but a last one cut short by the end of the buffer. */
  lemma ParentView(B: seq<char>, start: nat, h: Header, i: int)
    requires Prelude(B, start) == Some(h)
    requires var ps := ScanParents(B, h.shaStart + ShaLength);
      && 0 <= i < ps.count
      && (i < ps.count - 1 || ps.end + 1 < |B| - 1)
      && forall k :: ParentAt(h.shaStart, i) <= k < ParentAt(h.shaStart, i) + ShaLength && k < |B| ==> B[k] != '\0'
    ensures var p := ParentAt(h.shaStart, i);
      p + ShaLength < |B| && CStr(WithNuls(B, Written(B, start)), p) == B[p..p + ShaLength]
  {
    WrittenShape(B, start, h);
    BodyParentView(B, h, i);
  }
}
