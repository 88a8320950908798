/** Sequence notions shared by the other modules: substring search (what
    JavaScript's `String.prototype.includes` answers), order-preserving
    subsequences (what `Array.prototype.filter` returns) and duplicate-free
    sequences (what spreading a `Set` yields). */
module SeqUtil {

  /** `pat` occurs as a contiguous block of `s`. */
  predicate IsInfix<T(==)>(pat: seq<T>, s: seq<T>) {
    exists i | 0 <= i <= |s| - |pat| :: OccursAt(pat, s, i)
  }

  /** `pat` occurs in `s` starting at position `i`. */
  predicate OccursAt<T(==)>(pat: seq<T>, s: seq<T>, i: int) {
    0 <= i <= |s| - |pat| && s[i..i + |pat|] == pat
  }

  /** A block written between two others is found again. */
  lemma InfixOfConcat<T>(a: seq<T>, pat: seq<T>, b: seq<T>)
    ensures IsInfix(pat, a + pat + b)
  {
    var s := a + pat + b;
    assert OccursAt(pat, s, |a|);
  }

  /** A block found in `s` is still found once `s` is extended on the left. */
  lemma InfixPrepend<T>(pat: seq<T>, a: seq<T>, s: seq<T>)
    requires IsInfix(pat, s)
    ensures IsInfix(pat, a + s)
  {
    var i :| 0 <= i <= |s| - |pat| && OccursAt(pat, s, i);
    assert (a + s)[|a| + i..|a| + i + |pat|] == s[i..i + |pat|];
    assert OccursAt(pat, a + s, |a| + i);
  }

  /** A block found in `s` is still found once `s` is extended on the right. */
  lemma InfixAppend<T>(pat: seq<T>, s: seq<T>, b: seq<T>)
    requires IsInfix(pat, s)
    ensures IsInfix(pat, s + b)
  {
    var i :| 0 <= i <= |s| - |pat| && OccursAt(pat, s, i);
    assert (s + b)[i..i + |pat|] == s[i..i + |pat|];
    assert OccursAt(pat, s + b, i);
  }

  lemma ConcatAssoc<T>(a: seq<T>, b: seq<T>, c: seq<T>)
    ensures (a + b) + c == a + (b + c)
  {
  }

  /** The empty sequence is found in every sequence, as `s.includes('')` is true. */
  lemma EmptyIsInfix<T>(s: seq<T>)
    ensures IsInfix([], s)
  {
    assert OccursAt([], s, 0);
  }

  /** `a` is obtained from `b` by deleting elements, keeping the order of the rest. */
  predicate IsSubsequence<T(==)>(a: seq<T>, b: seq<T>)
    decreases |b|
  {
    if a == [] then true
    else if b == [] then false
    else (a[0] == b[0] && IsSubsequence(a[1..], b[1..])) || IsSubsequence(a, b[1..])
  }

  /** Appending an element to the longer side keeps a subsequence one. */
  lemma {:induction false} SubsequenceSnoc<T>(a: seq<T>, b: seq<T>, x: T)
    requires IsSubsequence(a, b)
    ensures IsSubsequence(a, b + [x])
    ensures IsSubsequence(a + [x], b + [x])
    decreases |b|
  {
    if a == [] {
      SubsequenceOfSingleton(b, x);
      assert a + [x] == [x];
    } else if b != [] {
      assert (b + [x])[1..] == b[1..] + [x];
      if a[0] == b[0] && IsSubsequence(a[1..], b[1..]) {
        SubsequenceSnoc(a[1..], b[1..], x);
        assert (a + [x])[1..] == a[1..] + [x];
      } else {
        SubsequenceSnoc(a, b[1..], x);
      }
    }
  }

  /** A single element is a subsequence of every sequence ending in it. */
  lemma {:induction false} SubsequenceOfSingleton<T>(b: seq<T>, x: T)
    ensures IsSubsequence([x], b + [x])
    decreases |b|
  {
    if b != [] {
      assert (b + [x])[1..] == b[1..] + [x];
      SubsequenceOfSingleton(b[1..], x);
    } else {
      assert ([x] + [])[1..] == [];
    }
  }

  /** No element occurs twice. */
  predicate NoDuplicates<T(==)>(s: seq<T>) {
    forall i, j :: 0 <= i < j < |s| ==> s[i] != s[j]
  }

  /** The position of the first occurrence of `x` in `s`. */
  function FirstIndex<T(==)>(s: seq<T>, x: T): (k: nat)
    requires x in s
    ensures k < |s| && s[k] == x && x !in s[..k]
  {
    if s[0] == x then 0
    else
      var k := FirstIndex(s[1..], x);
      assert s[..k + 1] == [s[0]] + s[1..][..k];
      k + 1
  }

  /** Appending an element does not move the first occurrence of one already present. */
  lemma FirstIndexSnoc<T>(s: seq<T>, y: T, x: T)
    requires x in s
    ensures FirstIndex(s + [y], x) == FirstIndex(s, x)
  {
    var t := s + [y];
    var i, j := FirstIndex(t, x), FirstIndex(s, x);
    assert t[j] == x;
    assert forall k :: 0 <= k < i ==> t[k] != x;
    assert forall k :: 0 <= k < j ==> s[k] != x;
  }

  /** An element added at the end, absent before, first occurs there. */
  lemma FirstIndexNew<T>(s: seq<T>, y: T)
    requires y !in s
    ensures FirstIndex(s + [y], y) == |s|
  {
  }
}
