/**
 * The part of JavaScript's `String.prototype.split` the client relies on:
 * splitting on a non-empty literal separator, scanning left to right with
 * non-overlapping matches, and reading element `[1]` of the resulting array.
 */
module JsSplit {
  import opened Wrappers

  /** `sep` occurs in `s` starting at index `i`. */
  predicate OccursAt(s: string, sep: string, i: int) {
    0 <= i && i + |sep| <= |s| && s[i..i + |sep|] == sep
  }

  /** `sep` occurs somewhere in `s`. */
  predicate Contains(s: string, sep: string) {
    exists i | 0 <= i <= |s| - |sep| :: OccursAt(s, sep, i)
  }

  /** `i` is the leftmost occurrence of `sep` in `s`. */
  predicate FirstAt(s: string, sep: string, i: int) {
    OccursAt(s, sep, i) && forall k | 0 <= k < i :: !OccursAt(s, sep, k)
  }

  /** Occurrences in `s` are occurrences in `p + s`, shifted by `|p|`. */
  lemma OccursAtShift(p: string, s: string, sep: string, k: int)
    requires 0 <= k
    ensures OccursAt(p + s, sep, |p| + k) <==> OccursAt(s, sep, k)
  {
    if k + |sep| <= |s| {
      assert (p + s)[|p| + k..|p| + k + |sep|] == s[k..k + |sep|];
    }
  }

  lemma TailOccurrences(s: string, sep: string)
    requires |s| > 0
    ensures forall k | 0 <= k :: OccursAt(s[1..], sep, k) <==> OccursAt(s, sep, k + 1)
  {
    assert s == [s[0]] + s[1..];
    forall k | 0 <= k
      ensures OccursAt(s[1..], sep, k) <==> OccursAt(s, sep, k + 1)
    {
      OccursAtShift([s[0]], s[1..], sep, k);
    }
  }

  /** JavaScript `s.indexOf(sep)`, with `None` for -1. */
  function IndexOf(s: string, sep: string): (r: Option<nat>)
    ensures r.Some? ==> FirstAt(s, sep, r.value)
    ensures r.None? <==> !Contains(s, sep)
    decreases |s|
  {
    if |s| < |sep| then None
    else if s[..|sep|] == sep then Some(0)
    else
      TailOccurrences(s, sep);
      match IndexOf(s[1..], sep)
      case None =>
        assert forall i | 0 <= i <= |s| - |sep| :: i == 0 || OccursAt(s, sep, i) == OccursAt(s[1..], sep, i - 1);
        None
      case Some(j) =>
        assert forall k | 0 <= k < j + 1 :: k == 0 || OccursAt(s, sep, k) == OccursAt(s[1..], sep, k - 1);
        assert s[0..|sep|] == s[..|sep|];
        Some(j + 1)
  }

  /** Nothing before the first occurrence contains the separator. */
  lemma PrefixBeforeFirst(s: string, sep: string, i: nat)
    requires |sep| > 0
    requires FirstAt(s, sep, i)
    ensures !Contains(s[..i], sep)
  {
    forall k | 0 <= k <= i - |sep|
      ensures !OccursAt(s[..i], sep, k)
    {
      assert k < i;
      assert !OccursAt(s, sep, k);
      assert s[..i][k..k + |sep|] == s[k..k + |sep|];
    }
  }

  /** The pieces `split` cuts `s` into: up to the first `sep`, then the rest split again. */
  function Pieces(s: string, sep: string): (parts: seq<string>)
    requires |sep| > 0
    ensures |parts| >= 1
    decreases |s|
  {
    match IndexOf(s, sep)
    case None => [s]
    case Some(i) => [s[..i]] + Pieces(s[i + |sep|..], sep)
  }

  lemma {:induction false} PiecesFacts(s: string, sep: string)
    requires |sep| > 0
    ensures |Pieces(s, sep)| >= 2 <==> Contains(s, sep)
    ensures forall k | 0 <= k < |Pieces(s, sep)| :: !Contains(Pieces(s, sep)[k], sep)
    ensures |Pieces(s, sep)| >= 2 ==> FirstAt(s, sep, |Pieces(s, sep)[0]|)
    decreases |s|
  {
    match IndexOf(s, sep)
    case None =>
    case Some(i) =>
      var rest := s[i + |sep|..];
      PrefixBeforeFirst(s, sep, i);
      PiecesFacts(rest, sep);
      var parts := Pieces(s, sep);
      assert parts == [s[..i]] + Pieces(rest, sep);
      forall k | 0 <= k < |parts|
        ensures !Contains(parts[k], sep)
      {
        if k > 0 {
          assert parts[k] == Pieces(rest, sep)[k - 1];
        }
      }
  }

  /** JavaScript `s.split(sep)` for a non-empty separator. */
  function Split(s: string, sep: string): (parts: seq<string>)
    requires |sep| > 0
    ensures |parts| >= 1
    ensures |parts| >= 2 <==> Contains(s, sep)
    ensures forall k | 0 <= k < |parts| :: !Contains(parts[k], sep)
    ensures |parts| >= 2 ==> FirstAt(s, sep, |parts[0]|)
  {
    PiecesFacts(s, sep);
    Pieces(s, sep)
  }

  /** JavaScript `parts.join(sep)`. */
  function Join(parts: seq<string>, sep: string): string
    requires |parts| >= 1
  {
    if |parts| == 1 then parts[0] else parts[0] + sep + Join(parts[1..], sep)
  }

  /** A string is the text before an occurrence, the separator, and the text after it. */
  lemma AroundOccurrence(s: string, sep: string, i: nat)
    requires OccursAt(s, sep, i)
    ensures s == s[..i] + sep + s[i + |sep|..]
  {
    assert s[i..i + |sep|] == sep;
    assert s == s[..i] + s[i..i + |sep|] + s[i + |sep|..];
  }

  lemma {:induction false} PiecesJoin(s: string, sep: string)
    requires |sep| > 0
    ensures Join(Pieces(s, sep), sep) == s
    decreases |s|
  {
    match IndexOf(s, sep)
    case None =>
    case Some(i) =>
      var rest := s[i + |sep|..];
      var parts := Pieces(s, sep);
      assert parts == [s[..i]] + Pieces(rest, sep);
      assert parts[1..] == Pieces(rest, sep);
      PiecesJoin(rest, sep);
      AroundOccurrence(s, sep, i);
  }

  /** Splitting loses nothing: joining the pieces back gives the input. */
  lemma SplitJoin(s: string, sep: string)
    requires |sep| > 0
    ensures Join(Split(s, sep), sep) == s
  {
    PiecesJoin(s, sep);
  }

  /**
   * `m` is what `split` keeps of `rest`: everything up to the next
   * occurrence of `sep`, or all of `rest` when there is none.
   */
  predicate KeptUpToNext(rest: string, sep: string, m: string) {
    && |m| <= |rest|
    && rest[..|m|] == m
    && (FirstAt(rest, sep, |m|) || (m == rest && !Contains(rest, sep)))
  }

  /** The first piece is what `split` keeps of the whole string. */
  lemma FirstPieceKept(rest: string, sep: string)
    requires |sep| > 0
    ensures KeptUpToNext(rest, sep, Pieces(rest, sep)[0])
  {
    match IndexOf(rest, sep)
    case None =>
    case Some(j) =>
      assert Pieces(rest, sep)[0] == rest[..j];
  }

  lemma SecondOfSplit(s: string, sep: string)
    requires |sep| > 0
    ensures |Pieces(s, sep)| >= 2 ==>
      exists i :: FirstAt(s, sep, i) && KeptUpToNext(s[i + |sep|..], sep, Pieces(s, sep)[1])
  {
    match IndexOf(s, sep)
    case None =>
    case Some(i) =>
      var rest := s[i + |sep|..];
      var parts := Pieces(s, sep);
      assert parts == [s[..i]] + Pieces(rest, sep);
      FirstPieceKept(rest, sep);
      assert parts[1] == Pieces(rest, sep)[0];
      assert FirstAt(s, sep, i) && KeptUpToNext(rest, sep, parts[1]);
  }

  /**
   * JavaScript `s.split(sep)[1]`: `None` (undefined) when the array has a
   * single element, that is, when `sep` does not occur in `s`.
   */
  function SplitSecond(s: string, sep: string): (r: Option<string>)
    requires |sep| > 0
    ensures r.Some? <==> Contains(s, sep)
    ensures r.Some? ==>
      exists i :: FirstAt(s, sep, i) && KeptUpToNext(s[i + |sep|..], sep, r.value)
  {
    SecondOfSplit(s, sep);
    var parts := Split(s, sep);
    if |parts| >= 2 then Some(parts[1]) else None
  }

  lemma FirstAtUnique(s: string, sep: string, i: int, j: int)
    requires FirstAt(s, sep, i) && FirstAt(s, sep, j)
    ensures i == j
  {
  }

  lemma KeptUnique(rest: string, sep: string, m: string, m': string)
    requires KeptUpToNext(rest, sep, m) && KeptUpToNext(rest, sep, m')
    ensures m == m'
  {
    if FirstAt(rest, sep, |m|) && FirstAt(rest, sep, |m'|) {
      FirstAtUnique(rest, sep, |m|, |m'|);
    }
  }

  /**
   * The converse of `SplitSecond`'s contract: whatever lies between the first
   * occurrence and the next one (or the end) is exactly element `[1]`.
   */
  lemma SplitSecondComplete(s: string, sep: string, i: int, m: string)
    requires |sep| > 0
    requires FirstAt(s, sep, i) && KeptUpToNext(s[i + |sep|..], sep, m)
    ensures SplitSecond(s, sep) == Some(m)
  {
    assert OccursAt(s, sep, i);
    var r := SplitSecond(s, sep);
    var i' :| FirstAt(s, sep, i') && KeptUpToNext(s[i' + |sep|..], sep, r.value);
    FirstAtUnique(s, sep, i, i');
    KeptUnique(s[i + |sep|..], sep, m, r.value);
  }

  /** A string that starts with the separator and has no other occurrence splits to that tail. */
  lemma SplitSecondAfterPrefix(sep: string, c: string)
    requires |sep| > 0
    requires !Contains(c, sep)
    ensures SplitSecond(sep + c, sep) == Some(c)
  {
    var s := sep + c;
    assert s[0..|sep|] == sep;
    assert s[|sep|..] == c;
    assert KeptUpToNext(c, sep, c);
    SplitSecondComplete(s, sep, 0, c);
  }
}
