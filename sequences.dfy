/**
 Sequence helpers shared by the problem encodings: absolute value,
 Python's `range`, an element swap and a segment reversal, with the
 facts that make them permutations.
 */
module Sequences {

  function Abs(x: int): (r: nat)
    ensures r == x || r == -x
  {
    if x < 0 then -x else x
  }

  /** Python's `list(range(lo, hi))`. */
  function Range(lo: int, hi: int): (r: seq<int>)
    decreases hi - lo
    ensures |r| == if lo <= hi then hi - lo else 0
    ensures forall k :: 0 <= k < |r| ==> r[k] == lo + k
  {
    if lo >= hi then [] else [lo] + Range(lo + 1, hi)
  }

  /** Python's `s.index(x)`: the first position holding `x`. */
  function IndexOf<T(==)>(s: seq<T>, x: T): (i: nat)
    requires x in s
    ensures i < |s| && s[i] == x
    ensures forall k :: 0 <= k < i ==> s[k] != x
  {
    if s[0] == x then 0 else 1 + IndexOf(s[1..], x)
  }

  /** `s[i], s[j] = s[j], s[i]` on a copy of `s`. */
  function Swap<T>(s: seq<T>, i: nat, j: nat): (r: seq<T>)
    requires i < |s| && j < |s|
  {
    s[i := s[j]][j := s[i]]
  }

  lemma SwapFacts<T>(s: seq<T>, i: nat, j: nat)
    requires i < |s| && j < |s|
    ensures |Swap(s, i, j)| == |s|
    ensures Swap(s, i, j)[i] == s[j] && Swap(s, i, j)[j] == s[i]
    ensures forall k :: 0 <= k < |s| && k != i && k != j ==> Swap(s, i, j)[k] == s[k]
    ensures multiset(Swap(s, i, j)) == multiset(s)
  {
    var t := s[i := s[j]];
    assert multiset(t) == multiset(s) - multiset{s[i]} + multiset{s[j]};
    assert multiset(t[j := s[i]]) == multiset(t) - multiset{t[j]} + multiset{s[i]};
  }

  function Reverse<T>(s: seq<T>): (r: seq<T>)
  {
    if s == [] then [] else Reverse(s[1..]) + [s[0]]
  }

  lemma {:induction false} ReverseAt<T>(s: seq<T>)
    ensures |Reverse(s)| == |s|
    ensures forall k :: 0 <= k < |s| ==> Reverse(s)[k] == s[|s| - 1 - k]
    ensures multiset(Reverse(s)) == multiset(s)
  {
    if s != [] {
      ReverseAt(s[1..]);
      assert s == [s[0]] + s[1..];
    }
  }

  /** `s[i:j + 1] = reversed(s[i:j + 1])` on a copy of `s`. */
  function ReverseSegment<T>(s: seq<T>, i: nat, j: nat): (r: seq<T>)
    requires i <= j < |s|
  {
    s[..i] + Reverse(s[i..j + 1]) + s[j + 1..]
  }

  lemma ReverseSegmentFacts<T>(s: seq<T>, i: nat, j: nat)
    requires i <= j < |s|
    ensures |ReverseSegment(s, i, j)| == |s|
    ensures forall k :: i <= k <= j ==> ReverseSegment(s, i, j)[k] == s[i + j - k]
    ensures forall k :: 0 <= k < |s| && (k < i || j < k) ==> ReverseSegment(s, i, j)[k] == s[k]
    ensures multiset(ReverseSegment(s, i, j)) == multiset(s)
  {
    var mid := s[i..j + 1];
    ReverseAt(mid);
    var r := ReverseSegment(s, i, j);
    forall k | i <= k <= j
      ensures r[k] == s[i + j - k]
    {
      assert r[k] == Reverse(mid)[k - i];
    }
    assert s == s[..i] + mid + s[j + 1..];
  }
}
