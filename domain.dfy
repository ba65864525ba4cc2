/**
  StateInfo, the state a view (a Domain) shows, with its three slots: the
  current state, the previous good state to roll back to, and the next
  state queued while an update is running (the lock is held); and the
  drag/drop flags of a Domain.
 */
module DomainState {

  /** StateInfo::S: one selection — commit, file, diff target and flags. */
  datatype S = S(sha: string, fn: string, dtSha: string, sel: bool, isM: bool, allM: bool)

  /** StateInfo::S::clear: nothing selected, but item selection on. */
  const Cleared := S("", "", "", true, false, false)

  /** StateInfo::S::operator==: all six fields agree.  (The identity test in
      the source is a shortcut of this.) */
  function SEquals(a: S, b: S): (r: bool)
    ensures r <==> a.sha == b.sha && a.fn == b.fn && a.dtSha == b.dtSha
                   && a.sel == b.sel && a.isM == b.isM && a.allM == b.allM
  {
    a == b
  }

  /** StateInfo::S::operator!=. */
  function SNotEquals(a: S, b: S): (r: bool)
    ensures r <==> a.sha != b.sha || a.fn != b.fn || a.dtSha != b.dtSha
                   || a.sel != b.sel || a.isM != b.isM || a.allM != b.allM
  {
    !SEquals(a, b)
  }

  /** StateInfo::Field: the bits of the mask isChanged takes. */
  const ShaField: bv32 := 1
  const FileNameField: bv32 := 2
  const DiffToShaField: bv32 := 4
  const AllMergeFilesField: bv32 := 8
  const AnyField: bv32 := 15

  /** StateInfo::isChanged for a current and a previous state: the fields
      are tested in the source's order and the first difference wins. */
  function Changed(cur: S, prev: S, what: bv32): (r: bool)
    ensures r <==>
      || (what & ShaField != 0 && cur.sha != prev.sha)
      || (what & FileNameField != 0 && cur.fn != prev.fn)
      || (what & DiffToShaField != 0 && cur.dtSha != prev.dtSha)
      || (what & AllMergeFilesField != 0 && cur.allM != prev.allM)
  {
    var r1 := what & ShaField != 0 && cur.sha != prev.sha;
    var r2 := if !r1 && what & FileNameField != 0 then cur.fn != prev.fn else r1;
    var r3 := if !r2 && what & DiffToShaField != 0 then cur.dtSha != prev.dtSha else r2;
    if !r3 && what & AllMergeFilesField != 0 then cur.allM != prev.allM else r3
  }

  /** Neither the selection flag nor the merge flag ever counts as a change. */
  lemma ChangedIgnoresSelAndMerge(cur: S, prev: S, what: bv32, sel1: bool, isM1: bool, sel2: bool, isM2: bool)
    ensures Changed(cur.(sel := sel1, isM := isM1), prev.(sel := sel2, isM := isM2), what)
         == Changed(cur, prev, what)
  {
  }

  /** Equal states never differ, and with the full mask any difference in
      the tracked fields shows. */
  lemma ChangedAny(cur: S, prev: S)
    ensures !Changed(cur, cur, AnyField)
    ensures Changed(cur, prev, AnyField) <==>
      cur.sha != prev.sha || cur.fn != prev.fn || cur.dtSha != prev.dtSha || cur.allM != prev.allM
  {
    assert AnyField & ShaField != 0 && AnyField & FileNameField != 0;
    assert AnyField & DiffToShaField != 0 && AnyField & AllMergeFilesField != 0;
  }

  /** A request is pending when a queued state names a commit and differs
      from the current one. */
  predicate Pending(cur: S, next: S)
  {
    next.sha != "" && SNotEquals(next, cur)
  }

  class StateInfo {
    var curS: S    // the current state, what sha() returns
    var prevS: S   // the previous good state, for a roll back
    var nextS: S   // the next state, queued while the lock is held
    var isLocked: bool

    /** StateInfo::StateInfo. */
    constructor ()
      ensures curS == Cleared && prevS == Cleared && nextS == Cleared && !isLocked
    {
      curS, prevS, nextS, isLocked := Cleared, Cleared, Cleared, false;
    }

    /** StateInfo::clear: all three slots cleared and the lock released. */
    method Clear()
      modifies this
      ensures curS == Cleared && prevS == Cleared && nextS == Cleared && !isLocked
      ensures !RequestPending()
    {
      nextS := Cleared;
      curS := Cleared;
      prevS := Cleared;
      isLocked := false;
    }

    /** The slot a getter reads: the current state for `n`, the previous one
        otherwise. */
    function View(n: bool): (s: S)
      reads this
    {
      if n then curS else prevS
    }

    function Sha(n: bool): string reads this { View(n).sha }
    function FileName(n: bool): string reads this { View(n).fn }
    function DiffToSha(n: bool): string reads this { View(n).dtSha }
    function SelectItem(n: bool): bool reads this { View(n).sel }
    function IsMerge(n: bool): bool reads this { View(n).isM }
    function AllMergeFiles(n: bool): bool reads this { View(n).allM }

    /** A setter: the change goes to the queued state while the lock is
        held, to the current state otherwise; nothing else changes. */
    method Update(f: S -> S)
      modifies this
      ensures isLocked == old(isLocked) && prevS == old(prevS)
      ensures old(isLocked) ==> nextS == f(old(nextS)) && curS == old(curS)
      ensures !old(isLocked) ==> curS == f(old(curS)) && nextS == old(nextS)
    {
      if isLocked {
        nextS := f(nextS);
      } else {
        curS := f(curS);
      }
    }

    /** StateInfo::setSha; the getter sees the new value unless locked. */
    method SetSha(v: string)
      modifies this
      ensures isLocked == old(isLocked) && prevS == old(prevS)
      ensures old(isLocked) ==> nextS == old(nextS).(sha := v) && curS == old(curS)
      ensures !old(isLocked) ==> curS == old(curS).(sha := v) && nextS == old(nextS)
      ensures Sha(true) == if isLocked then old(Sha(true)) else v
    {
      Update((s: S) => s.(sha := v));
    }

    /** StateInfo::setFileName. */
    method SetFileName(v: string)
      modifies this
      ensures isLocked == old(isLocked) && prevS == old(prevS)
      ensures old(isLocked) ==> nextS == old(nextS).(fn := v) && curS == old(curS)
      ensures !old(isLocked) ==> curS == old(curS).(fn := v) && nextS == old(nextS)
      ensures FileName(true) == if isLocked then old(FileName(true)) else v
    {
      Update((s: S) => s.(fn := v));
    }

    /** StateInfo::setDiffToSha. */
    method SetDiffToSha(v: string)
      modifies this
      ensures isLocked == old(isLocked) && prevS == old(prevS)
      ensures old(isLocked) ==> nextS == old(nextS).(dtSha := v) && curS == old(curS)
      ensures !old(isLocked) ==> curS == old(curS).(dtSha := v) && nextS == old(nextS)
      ensures DiffToSha(true) == if isLocked then old(DiffToSha(true)) else v
    {
      Update((s: S) => s.(dtSha := v));
    }

    /** StateInfo::setSelectItem. */
    method SetSelectItem(b: bool)
      modifies this
      ensures isLocked == old(isLocked) && prevS == old(prevS)
      ensures old(isLocked) ==> nextS == old(nextS).(sel := b) && curS == old(curS)
      ensures !old(isLocked) ==> curS == old(curS).(sel := b) && nextS == old(nextS)
      ensures SelectItem(true) == if isLocked then old(SelectItem(true)) else b
    {
      Update((s: S) => s.(sel := b));
    }

    /** StateInfo::setIsMerge. */
    method SetIsMerge(b: bool)
      modifies this
      ensures isLocked == old(isLocked) && prevS == old(prevS)
      ensures old(isLocked) ==> nextS == old(nextS).(isM := b) && curS == old(curS)
      ensures !old(isLocked) ==> curS == old(curS).(isM := b) && nextS == old(nextS)
      ensures IsMerge(true) == if isLocked then old(IsMerge(true)) else b
    {
      Update((s: S) => s.(isM := b));
    }

    /** StateInfo::setAllMergeFiles. */
    method SetAllMergeFiles(b: bool)
      modifies this
      ensures isLocked == old(isLocked) && prevS == old(prevS)
      ensures old(isLocked) ==> nextS == old(nextS).(allM := b) && curS == old(curS)
      ensures !old(isLocked) ==> curS == old(curS).(allM := b) && nextS == old(nextS)
      ensures AllMergeFiles(true) == if isLocked then old(AllMergeFiles(true)) else b
    {
      Update((s: S) => s.(allM := b));
    }

    /** StateInfo::requestPending. */
    predicate RequestPending()
      reads this
    {
      Pending(curS, nextS)
    }

    /** StateInfo::setLock: taking the lock starts the queue from the
        current state, so nothing is pending right after it. */
    method SetLock(b: bool)
      modifies this
      ensures isLocked == b && curS == old(curS) && prevS == old(prevS)
      ensures nextS == if b then old(curS) else old(nextS)
      ensures b ==> !RequestPending()
    {
      isLocked := b;
      if b {
        nextS := curS;
      }
    }

    /** StateInfo::commit: the current state becomes the good one, so no
        field counts as changed any more. */
    method Commit()
      modifies this
      ensures prevS == old(curS) && curS == old(curS) && nextS == old(nextS) && isLocked == old(isLocked)
      ensures forall what: bv32 :: !IsChanged(what)
    {
      prevS := curS;
    }

    /** StateInfo::rollBack: back to the previous good state; a queued
        request equal to the abandoned state is dropped, so it cannot start
        the failed update again. */
    method RollBack()
      modifies this
      ensures curS == old(prevS) && prevS == old(prevS) && isLocked == old(isLocked)
      ensures nextS == if old(nextS) == old(curS) then Cleared else old(nextS)
      ensures old(nextS) == old(curS) ==> !RequestPending()
      ensures forall what: bv32 :: !IsChanged(what)
    {
      if nextS == curS {
        // invalidate, to avoid an endless loop
        nextS := Cleared;
      }
      curS := prevS;
    }

    /** StateInfo::flushQueue: the queued state becomes current exactly when
        a request is pending; afterwards none is. */
    method FlushQueue() returns (r: bool)
      modifies this
      ensures r == old(RequestPending())
      ensures curS == (if r then old(nextS) else old(curS))
      ensures prevS == old(prevS) && nextS == old(nextS) && isLocked == old(isLocked)
      ensures !RequestPending()
    {
      if RequestPending() {
        curS := nextS;
        return true;
      }
      return false;
    }

    /** StateInfo::operator=: only the other's current state is taken, into
        the queue while locked and as the current state otherwise; the
        previous state stays, to allow a roll back. */
    method Assign(other: StateInfo)
      modifies this
      ensures other == this ==> curS == old(curS) && nextS == old(nextS)
      ensures other != this && old(isLocked) ==> nextS == old(other.curS) && curS == old(curS)
      ensures other != this && !old(isLocked) ==> curS == old(other.curS) && nextS == old(nextS)
      ensures prevS == old(prevS) && isLocked == old(isLocked)
    {
      if other != this {
        if isLocked {
          nextS := other.curS;
        } else {
          // prevS stays, to allow a roll back
          curS := other.curS;
        }
      }
    }

    /** StateInfo::operator==: only the current states are compared. */
    predicate Equals(other: StateInfo)
      reads this, other
    {
      other == this || SEquals(curS, other.curS)
    }

    /** StateInfo::operator!=. */
    predicate NotEquals(other: StateInfo)
      reads this, other
    {
      !Equals(other)
    }

    /** StateInfo::isChanged: whether a masked field differs between the
        current and the previous state. */
    predicate IsChanged(what: bv32)
      reads this
    {
      Changed(View(true), View(false), what)
    }
  }

  /** StateInfo equality is equality of the current states: it ignores the
      previous and the queued state and the lock, and != is its negation. */
  lemma StateEquality(a: StateInfo, b: StateInfo)
    ensures a.Equals(b) <==> a.curS == b.curS
    ensures a.NotEquals(b) <==> a.curS != b.curS
    ensures a.Equals(b) <==> b.Equals(a)
  {
  }

  /** A request is pending exactly when the queued state names a commit and
      differs from the current one in some field. */
  lemma PendingFields(cur: S, next: S)
    ensures Pending(cur, next) <==>
      next.sha != "" &&
      (next.sha != cur.sha || next.fn != cur.fn || next.dtSha != cur.dtSha ||
       next.sel != cur.sel || next.isM != cur.isM || next.allM != cur.allM)
  {
  }

  // ---------------------------------------------------------------------
  // Domain
  // ---------------------------------------------------------------------

  /** The drag/drop part of a Domain: its state, and the flags the
      drag-and-drop gestures go through. */
  class Domain {
    const st: StateInfo
    var busy: bool
    var readyToDrag: bool
    var dragging: bool
    var dropping: bool
    var linked: bool

    /** A view never is both ready to start a drag and dragging. */
    predicate DragFlags()
      reads this
    {
      !(readyToDrag && dragging)
    }

    /** Domain::Domain, without its widgets and history model: the state
        cleared and every flag off. */
    constructor ()
      ensures fresh(st) && !busy && !readyToDrag && !dragging && !dropping && !linked
      ensures st.curS == Cleared && st.prevS == Cleared && st.nextS == Cleared && !st.isLocked
      ensures DragFlags()
    {
      st := new StateInfo();
      busy, readyToDrag, dragging, dropping, linked := false, false, false, false, false;
    }

    /** Domain::setReadyToDrag: ready only when asked and nothing is busy,
        dragging or dropping. */
    method SetReadyToDrag(b: bool) returns (r: bool)
      modifies this
      ensures r == readyToDrag
      ensures readyToDrag == (b && !old(busy) && !old(dragging) && !old(dropping))
      ensures busy == old(busy) && dragging == old(dragging) && dropping == old(dropping)
      ensures linked == old(linked)
      ensures DragFlags()
    {
      readyToDrag := b && !busy && !dragging && !dropping;
      return readyToDrag;
    }

    /** Domain::setDragging: a drag starts only from the ready state and
        while not dropping, and then clears the ready flag; when a drag
        ends, the state updates queued during it are flushed. */
    method SetDragging(b: bool) returns (r: bool)
      modifies this, st
      ensures r == dragging
      ensures dragging == (b && old(readyToDrag) && !old(dropping))
      ensures readyToDrag == (old(readyToDrag) && !dragging)
      ensures busy == old(busy) && dropping == old(dropping) && linked == old(linked)
      ensures DragFlags()
      ensures var flushed := !b && old(dragging) && !old(busy) && old(st.RequestPending());
        && st.curS == (if flushed then old(st.nextS) else old(st.curS))
        && st.prevS == old(st.prevS) && st.nextS == old(st.nextS) && st.isLocked == old(st.isLocked)
    {
      var dragFinished := !b && dragging;
      dragging := b && readyToDrag && !dropping;
      if dragging {
        readyToDrag := false;
      }
      if dragFinished {
        var _ := FlushQueue();
      }
      return dragging;
    }

    /** Domain::setDropping. */
    method SetDropping(b: bool)
      modifies this
      ensures dropping == b
      ensures busy == old(busy) && readyToDrag == old(readyToDrag) && dragging == old(dragging)
      ensures linked == old(linked)
      ensures old(DragFlags()) ==> DragFlags()
    {
      dropping := b;
    }

    /** Domain::flushQueue, without the update event it posts: a pending
        request is flushed unless the view is busy. */
    method FlushQueue() returns (r: bool)
      modifies st
      ensures r == (!busy && old(st.RequestPending()))
      ensures st.curS == (if r then old(st.nextS) else old(st.curS))
      ensures st.prevS == old(st.prevS) && st.nextS == old(st.nextS) && st.isLocked == old(st.isLocked)
    {
      if !busy {
        r := st.FlushQueue();
      } else {
        r := false;
      }
    }
  }
}
