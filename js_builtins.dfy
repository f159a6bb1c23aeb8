/**
 * The JavaScript built-ins the news component relies on, stated on Dafny
 * sequences: `slice` (shared by arrays and strings), `indexOf` and `split`
 * with a non-empty string separator.
 */
module JsBuiltins {

  /** Resolves a `slice` position: negative positions count back from the
      end of the sequence, and the result is clamped to [0, len]. */
  function ClampIndex(pos: int, len: nat): (k: nat)
    ensures k <= len
    ensures 0 <= pos <= len ==> k == pos
  {
    if pos < 0 then (if len + pos < 0 then 0 else len + pos)
    else if pos < len then pos
    else len
  }

  function Min(a: int, b: int): int {
    if a < b then a else b
  }

  /** `s.slice(start, end)`: the elements from the resolved start up to the
      resolved end, or nothing when the end does not lie after the start. */
  function Slice<T>(s: seq<T>, start: int, end: int): (r: seq<T>)
    ensures |r| <= |s|
    ensures 0 <= start <= end ==> r == s[Min(start, |s|)..Min(end, |s|)]
    ensures ClampIndex(start, |s|) + |r| <= |s|
    ensures forall i :: 0 <= i < |r| ==> r[i] == s[ClampIndex(start, |s|) + i]
  {
    var k, f := ClampIndex(start, |s|), ClampIndex(end, |s|);
    if k < f then s[k..f] else []
  }

  /** `s.slice(0, n)` keeps the first `n` elements, or all of them when
      there are fewer. */
  lemma SliceFromZero<T>(s: seq<T>, n: nat)
    ensures Slice(s, 0, n) <= s
    ensures |Slice(s, 0, n)| == Min(|s|, n)
    ensures |s| <= n ==> Slice(s, 0, n) == s
  {
  }

  /** `sep` occurs in `s` starting at position `i`. */
  ghost predicate OccursAt(s: string, sep: string, i: nat) {
    i + |sep| <= |s| && s[i..i + |sep|] == sep
  }

  ghost predicate Contains(s: string, sep: string) {
    exists i: nat :: OccursAt(s, sep, i)
  }

  /** `s.indexOf(sep, from)` for a non-empty `sep`: the first position at or
      after `from` where `sep` occurs, or -1. */
  function IndexFrom(s: string, sep: string, from: nat): (r: int)
    requires |sep| > 0
    decreases |s| - from
    ensures r >= 0 ==> from <= r && OccursAt(s, sep, r)
    ensures r >= 0 ==> forall j: nat :: from <= j < r ==> !OccursAt(s, sep, j)
    ensures r < 0 ==> r == -1 && forall j: nat :: from <= j ==> !OccursAt(s, sep, j)
  {
    if from + |sep| > |s| then -1
    else if s[from..from + |sep|] == sep then from
    else IndexFrom(s, sep, from + 1)
  }

  /** `s.indexOf(sep)` for a non-empty `sep`. */
  function IndexOf(s: string, sep: string): (r: int)
    requires |sep| > 0
    ensures r >= 0 <==> Contains(s, sep)
    ensures r >= 0 ==> OccursAt(s, sep, r) && forall j: nat :: j < r ==> !OccursAt(s, sep, j)
  {
    IndexFrom(s, sep, 0)
  }

  /** No occurrence of `sep` lies inside a prefix of `s` that ends before the
      first occurrence in `s`. */
  lemma PrefixBeforeFirst(s: string, sep: string, k: nat)
    requires |sep| > 0 && k <= |s|
    requires forall j: nat :: j < k ==> !OccursAt(s, sep, j)
    ensures !Contains(s[..k], sep)
  {
    forall j: nat | OccursAt(s[..k], sep, j)
      ensures false
    {
      assert j < k;
      assert s[..k][j..j + |sep|] == s[j..j + |sep|];
      assert OccursAt(s, sep, j);
    }
  }

  /** `s.split(sep)` for a non-empty string separator: the pieces between
      successive occurrences of `sep`; a string without `sep` is one piece. */
  function Split(s: string, sep: string): (parts: seq<string>)
    requires |sep| > 0
    decreases |s|
    ensures |parts| >= 1
    ensures forall k :: 0 <= k < |parts| ==> |parts[k]| <= |s|
    ensures parts[0] <= s
    ensures forall j: nat :: j < |parts[0]| ==> !OccursAt(s, sep, j)
    ensures Contains(s, sep) ==> OccursAt(s, sep, |parts[0]|) && |parts| >= 2
    ensures !Contains(s, sep) ==> parts == [s]
  {
    var i := IndexOf(s, sep);
    if i < 0 then [s]
    else [s[..i]] + Split(s[i + |sep|..], sep)
  }

  /** `parts.join(sep)`, the inverse of `Split`. */
  function Join(parts: seq<string>, sep: string): string
    requires |parts| >= 1
  {
    if |parts| == 1 then parts[0] else parts[0] + sep + Join(parts[1..], sep)
  }

  /** Joining the pieces of a split with the same separator rebuilds the
      string. */
  lemma {:induction false} JoinSplit(s: string, sep: string)
    requires |sep| > 0
    ensures Join(Split(s, sep), sep) == s
    decreases |s|
  {
    var i := IndexOf(s, sep);
    if i >= 0 {
      var head, rest := s[..i], s[i + |sep|..];
      JoinSplit(rest, sep);
      var tail := Split(rest, sep);
      assert Split(s, sep) == [head] + tail;
      JoinCons(head, tail, sep);
      assert OccursAt(s, sep, i);
      ThreeWay(s, i, i + |sep|);
    }
  }

  lemma ThreeWay<T>(s: seq<T>, a: nat, b: nat)
    requires a <= b <= |s|
    ensures s == s[..a] + s[a..b] + s[b..]
  {
  }

  lemma JoinCons(head: string, tail: seq<string>, sep: string)
    requires |tail| >= 1
    ensures Join([head] + tail, sep) == head + sep + Join(tail, sep)
  {
    assert ([head] + tail)[1..] == tail;
  }

  /** No piece of a split contains the separator. */
  lemma {:induction false} SplitPiecesAvoidSeparator(s: string, sep: string)
    requires |sep| > 0
    ensures forall k :: 0 <= k < |Split(s, sep)| ==> !Contains(Split(s, sep)[k], sep)
    decreases |s|
  {
    var i := IndexOf(s, sep);
    if i < 0 {
    } else {
      PrefixBeforeFirst(s, sep, i);
      SplitPiecesAvoidSeparator(s[i + |sep|..], sep);
    }
  }
}
