/** Order of the messages inside one page: the page-local reversal that
    `get_chunk` applies when `reverse` is truthy, as a function on sequences
    and as the in-place step on an array, with the facts the traversal needs. */
module PageOrder {

  /** `s` read back to front. */
  function Reversed<T>(s: seq<T>): (r: seq<T>)
    ensures |r| == |s|
  {
    if s == [] then [] else [s[|s| - 1]] + Reversed(s[..|s| - 1])
  }

  /** Element `k` of the reversal is element `|s| - 1 - k` of the original. */
  lemma {:induction false} ReversedAt<T>(s: seq<T>, k: int)
    requires 0 <= k < |s|
    ensures |Reversed(s)| == |s| && Reversed(s)[k] == s[|s| - 1 - k]
    decreases |s|
  {
    var init := s[..|s| - 1];
    if k > 0 {
      ReversedAt(init, k - 1);
    } else if init != [] {
      ReversedAt(init, 0);
    }
  }

  lemma ReversedIndex<T>(s: seq<T>)
    ensures |Reversed(s)| == |s|
    ensures forall k :: 0 <= k < |s| ==> Reversed(s)[k] == s[|s| - 1 - k]
  {
    if s != [] {
      ReversedAt(s, 0);
    }
    forall k | 0 <= k < |s|
      ensures Reversed(s)[k] == s[|s| - 1 - k]
    {
      ReversedAt(s, k);
    }
  }

  /** Reversing a page twice gives the page back. */
  lemma ReversedTwice<T>(s: seq<T>)
    ensures Reversed(Reversed(s)) == s
  {
    ReversedIndex(s);
    ReversedIndex(Reversed(s));
  }

  /** The reversal of a concatenation is the concatenation of the reversals, swapped. */
  lemma ReversedConcat<T>(a: seq<T>, b: seq<T>)
    ensures Reversed(a + b) == Reversed(b) + Reversed(a)
  {
    ReversedIndex(a);
    ReversedIndex(b);
    ReversedIndex(a + b);
    var l, r := Reversed(a + b), Reversed(b) + Reversed(a);
    forall k | 0 <= k < |l|
      ensures l[k] == r[k]
    {
      if k < |b| {
        assert r[k] == Reversed(b)[k];
      } else {
        assert r[k] == Reversed(a)[k - |b|];
      }
    }
  }

  /** Reversal neither adds nor drops messages. */
  lemma {:induction false} ReversedMultiset<T>(s: seq<T>)
    ensures multiset(Reversed(s)) == multiset(s)
  {
    if s != [] {
      var init := s[..|s| - 1];
      ReversedMultiset(init);
      assert s == init + [s[|s| - 1]];
    }
  }

  /** The in-place `list.reverse()` of a page held in an array. */
  method ReverseInPlace<T>(a: array<T>)
    modifies a
    ensures a[..] == Reversed(old(a[..]))
  {
    var lo, hi := 0, a.Length - 1;
    while lo < hi
      invariant 0 <= lo && hi == a.Length - 1 - lo
      invariant lo <= a.Length - lo
      invariant forall k :: 0 <= k < lo ==> a[k] == old(a[a.Length - 1 - k]) && a[a.Length - 1 - k] == old(a[k])
      invariant forall k :: lo <= k < a.Length - lo ==> a[k] == old(a[k])
    {
      a[lo], a[hi] := a[hi], a[lo];
      lo, hi := lo + 1, hi - 1;
    }
    ReversedIndex(old(a[..]));
  }
}
