/**
  The handful of QByteArray and C-string operations the record indexer relies
  on, stated over the buffer's contents as a sequence of characters.
 */
module ByteArray {

  /** QByteArray::indexOf(char, from): the first position at or after `from`
      that holds `c`, or -1 when there is none. */
  function IndexOf(s: seq<char>, c: char, from: nat): (r: int)
    decreases |s| - from
    ensures r == -1 || (from <= r < |s| && s[r] == c)
    ensures r == -1 ==> forall k :: from <= k < |s| ==> s[k] != c
    ensures r != -1 ==> forall k :: from <= k < r ==> s[k] != c
  {
    if from >= |s| then -1
    else if s[from] == c then from
    else IndexOf(s, c, from + 1)
  }

  /** Two buffers that agree from `from` on give the same search result. */
  lemma {:induction false} IndexOfAgree(s: seq<char>, t: seq<char>, c: char, from: nat)
    requires AgreeFrom(s, t, from)
    ensures IndexOf(s, c, from) == IndexOf(t, c, from)
    decreases |s| - from
  {
    if from < |s| && s[from] != c {
      IndexOfAgree(s, t, c, from + 1);
    }
  }

  /** True when `p` occurs in `s` starting at position `k`. */
  predicate OccursAt(s: seq<char>, p: seq<char>, k: int)
  {
    0 <= k && k + |p| <= |s| && s[k..k + |p|] == p
  }

  /** QByteArray::indexOf(const char*, from): the first position at or after
      `from` where `p` occurs, or -1 when it occurs nowhere there. */
  function IndexOfSeq(s: seq<char>, p: seq<char>, from: nat): (r: int)
    decreases |s| - from
    ensures r == -1 || (from <= r && OccursAt(s, p, r))
    ensures r == -1 ==> forall k :: from <= k ==> !OccursAt(s, p, k)
    ensures r != -1 ==> forall k :: from <= k < r ==> !OccursAt(s, p, k)
  {
    if from + |p| > |s| then -1
    else if s[from..from + |p|] == p then from
    else IndexOfSeq(s, p, from + 1)
  }

  /** The NUL-terminated string a `const char*` at position `p` denotes:
      the characters up to the first NUL, or up to the end of the buffer
      (a QByteArray keeps a NUL just past its last byte). */
  function CStr(s: seq<char>, p: nat): (r: seq<char>)
    requires p <= |s|
    decreases |s| - p
    ensures p + |r| <= |s| && r == s[p..p + |r|]
    ensures forall k :: 0 <= k < |r| ==> r[k] != '\0'
    ensures p + |r| == |s| || s[p + |r|] == '\0'
  {
    if p == |s| || s[p] == '\0' then [] else [s[p]] + CStr(s, p + 1)
  }

  /** A C string that meets its NUL after exactly `n` characters is those
      `n` characters. */
  lemma {:induction false} CStrUpTo(s: seq<char>, p: nat, n: nat)
    requires p + n < |s| && s[p + n] == '\0'
    requires forall k :: p <= k < p + n ==> s[k] != '\0'
    ensures CStr(s, p) == s[p..p + n]
    decreases n
  {
    if n > 0 {
      CStrUpTo(s, p + 1, n - 1);
    }
  }

  /** The buffer after a NUL terminator was written at every position of `ps`. */
  function WithNuls(s: seq<char>, ps: set<int>): (r: seq<char>)
    ensures |r| == |s|
    ensures forall k :: 0 <= k < |s| ==> r[k] == (if k in ps then '\0' else s[k])
  {
    seq(|s|, k requires 0 <= k < |s| => if k in ps then '\0' else s[k])
  }

  /** Where no NUL was written, the buffer reads as before. */
  lemma WithNulsSlice(s: seq<char>, ps: set<int>, a: nat, b: nat)
    requires a <= b <= |s|
    requires forall k :: a <= k < b ==> k !in ps
    ensures WithNuls(s, ps)[a..b] == s[a..b]
  {
    var r := WithNuls(s, ps);
    assert forall k :: 0 <= k < b - a ==> r[a..b][k] == r[a + k];
  }

  /** One more NUL written into a buffer. */
  lemma WithNulsAdd(s: seq<char>, ps: set<int>, i: nat)
    requires i < |s|
    ensures WithNuls(s, ps)[i := '\0'] == WithNuls(s, ps + {i})
  {
  }

  /** Agreement of two buffers of one length at every position from `from` on. */
  predicate AgreeFrom(s: seq<char>, t: seq<char>, from: int)
  {
    |s| == |t| && forall k :: from <= k < |s| && 0 <= k ==> s[k] == t[k]
  }

  function Pow10(n: nat): (r: nat)
    ensures r >= 1
  {
    if n == 0 then 1 else 10 * Pow10(n - 1)
  }

  predicate IsDigit(c: char)
  {
    '0' <= c <= '9'
  }

  /** The value the log-size loop accumulates over `d`: each character counts
      as its code minus the code of '0', most significant first.  No check is
      made that the characters are digits. */
  function DigitsValue(d: seq<char>): (v: int)
    ensures (forall k :: 0 <= k < |d| ==> IsDigit(d[k])) ==> 0 <= v < Pow10(|d|)
  {
    if d == [] then 0
    else DigitsValue(d[..|d| - 1]) * 10 + (d[|d| - 1] as int - '0' as int)
  }
}
