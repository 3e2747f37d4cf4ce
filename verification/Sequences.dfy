/** Sequence operations shared by the stores, and the buffers that compute them in place. */
module Sequences {

  /** The last `n` elements, or all of them. */
  function Suffix<T>(s: seq<T>, n: nat): seq<T> {
    if |s| <= n then s else s[|s| - n..]
  }

  function Reversed<T>(s: seq<T>): (r: seq<T>)
    ensures |r| == |s|
    ensures forall i | 0 <= i < |s| :: r[i] == s[|s| - 1 - i]
  {
    seq(|s|, i requires 0 <= i < |s| => s[|s| - 1 - i])
  }

  /** The first position of `k`, or the length if there is none. */
  function FirstIndex<K(==)>(keys: seq<K>, k: K): (i: nat)
    ensures i <= |keys|
    ensures i < |keys| ==> keys[i] == k
    ensures forall j | 0 <= j < i :: keys[j] != k
  {
    if keys == [] || keys[0] == k then 0 else 1 + FirstIndex(keys[1..], k)
  }

  function Filter<T>(p: T -> bool, s: seq<T>): (r: seq<T>)
    ensures |r| <= |s|
  {
    if s == [] then []
    else Filter(p, s[..|s| - 1]) + if p(s[|s| - 1]) then [s[|s| - 1]] else []
  }

  lemma {:induction false} FilterMembers<T>(p: T -> bool, s: seq<T>)
    ensures forall x | x in s :: p(x) <==> x in Filter(p, s)
    ensures forall x | x in Filter(p, s) :: x in s
  {
    if s != [] {
      FilterMembers(p, s[..|s| - 1]);
      assert s == s[..|s| - 1] + [s[|s| - 1]];
    }
  }

  lemma {:induction false} FilterConcat<T>(p: T -> bool, a: seq<T>, b: seq<T>)
    ensures Filter(p, a + b) == Filter(p, a) + Filter(p, b)
  {
    if b == [] {
      assert a + b == a;
    } else {
      var init, last := b[..|b| - 1], b[|b| - 1];
      FilterConcat(p, a, init);
      var all := a + b;
      assert all[..|all| - 1] == a + init;
      var tail := if p(last) then [last] else [];
      assert Filter(p, all) == Filter(p, a + init) + tail;
      assert Filter(p, b) == Filter(p, init) + tail;
    }
  }

  lemma FilterOne<T>(p: T -> bool, x: T)
    ensures Filter(p, [x]) == if p(x) then [x] else []
  {
    assert [x][..0] == [];
  }

  /** Filtering by a stronger predicate makes an earlier filtering invisible. */
  lemma {:induction false} FilterTwice<T>(p: T -> bool, q: T -> bool, s: seq<T>)
    requires forall x | x in s && q(x) :: p(x)
    ensures Filter(q, Filter(p, s)) == Filter(q, s)
  {
    if s != [] {
      var init, last := s[..|s| - 1], s[|s| - 1];
      assert s == init + [last];
      FilterTwice(p, q, init);
      FilterConcat(q, Filter(p, init), if p(last) then [last] else []);
      FilterOne(q, last);
    }
  }

  lemma FilterOneMore<T>(p: T -> bool, s: seq<T>, x: T)
    ensures Filter(p, s + [x]) == Filter(p, s) + if p(x) then [x] else []
  {
    assert (s + [x])[..|s|] == s;
  }

  /** An element that only the second predicate keeps is lost when the first filters before. */
  lemma {:induction false} FilterLoses<T>(p: T -> bool, q: T -> bool, s: seq<T>)
    ensures |Filter(q, Filter(p, s))| <= |Filter(q, s)|
    ensures (exists x | x in s :: q(x) && !p(x)) ==> |Filter(q, Filter(p, s))| < |Filter(q, s)|
  {
    if s != [] {
      var init, last := s[..|s| - 1], s[|s| - 1];
      assert s == init + [last];
      FilterLoses(p, q, init);
      hide Filter;
      FilterOneMore(p, init, last);
      FilterOneMore(q, init, last);
      if p(last) {
        FilterOneMore(q, Filter(p, init), last);
      } else {
        assert Filter(p, init) + [] == Filter(p, init);
      }
    }
  }

  lemma {:induction false} FilterAll<T>(p: T -> bool, s: seq<T>)
    ensures |Filter(p, s)| == |s| <==> forall x | x in s :: p(x)
    ensures |Filter(p, s)| == |s| ==> Filter(p, s) == s
  {
    if s != [] {
      var init, last := s[..|s| - 1], s[|s| - 1];
      assert s == init + [last];
      FilterAll(p, init);
    }
  }

  lemma SuffixPush<T>(s: seq<T>, x: T, n: nat)
    requires n > 0
    ensures Suffix(Suffix(s, n) + [x], n) == Suffix(s + [x], n)
  {
  }

  lemma SuffixInit<T>(s: seq<T>, n: nat)
    requires n > 0 && s != []
    ensures var r := Suffix(s, n);
            r != [] && r[|r| - 1] == s[|s| - 1] && r[..|r| - 1] == Suffix(s[..|s| - 1], n - 1)
  {
  }

  /** A window over the most recent elements, kept in place in a slice of fixed capacity. */
  class SlidingWindow<T(0)> {
    const buffer: array<T>
    var len: nat

    ghost predicate Valid()
      reads this
    {
      len <= buffer.Length && buffer.Length > 0
    }

    ghost function Contents(): seq<T>
      reads this, buffer
      requires Valid()
    {
      buffer[..len]
    }

    constructor (limit: nat)
      requires limit > 0
      ensures Valid() && fresh(buffer) && buffer.Length == limit && Contents() == []
    {
      buffer := new T[limit];
      len := 0;
    }

    /** Appends while there is room; afterwards shifts everything down by one place. */
    method Push(x: T)
      requires Valid()
      modifies this, buffer
      ensures Valid()
      ensures Contents() == Suffix(old(Contents()) + [x], buffer.Length)
    {
      if len < buffer.Length {
        buffer[len] := x;
        len := len + 1;
        assert Contents() == old(Contents()) + [x];
        return;
      }
      for i := 1 to len
        invariant len == buffer.Length
        invariant forall k | 0 <= k < i - 1 :: buffer[k] == old(buffer[k + 1])
        invariant forall k | i - 1 <= k < len :: buffer[k] == old(buffer[k])
      {
        buffer[i - 1] := buffer[i];
      }
      buffer[len - 1] := x;
      assert Contents() == (old(Contents()) + [x])[1..];
    }

    method Reverse()
      requires Valid()
      modifies buffer
      ensures Valid()
      ensures Contents() == Reversed(old(Contents()))
    {
      ReverseInPlace(buffer, len);
    }
  }

  /** Reverses the first `n` elements by swapping from both ends. */
  method ReverseInPlace<T>(a: array<T>, n: nat)
    requires n <= a.Length
    modifies a
    ensures a[..n] == Reversed(old(a[..n]))
  {
    var i, j := 0, n - 1;
    while i < j
      invariant 0 <= i <= j + 1 <= n && i + j == n - 1
      invariant forall k | 0 <= k < i || j < k < n :: a[k] == old(a[n - 1 - k])
      invariant forall k | i <= k <= j :: a[k] == old(a[k])
    {
      a[i], a[j] := a[j], a[i];
      i, j := i + 1, j - 1;
    }
    assert forall k | 0 <= k < n :: a[..n][k] == Reversed(old(a[..n]))[k];
  }

  /** Compacts the elements that satisfy `p` to the front; `n` of them. */
  method FilterInPlace<T>(a: array<T>, p: T -> bool) returns (n: nat)
    modifies a
    ensures n <= a.Length
    ensures a[..n] == Filter(p, old(a[..]))
  {
    n := 0;
    for i := 0 to a.Length
      invariant n <= i
      invariant a[..n] == Filter(p, old(a[..i]))
      invariant forall k | i <= k < a.Length :: a[k] == old(a[k])
    {
      assert old(a[..i + 1])[..i] == old(a[..i]);
      if p(a[i]) {
        a[n] := a[i];
        n := n + 1;
      }
    }
    assert old(a[..a.Length]) == old(a[..]);
  }
}
