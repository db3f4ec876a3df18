/** Small sequence vocabulary shared by the listing parser and the catalog builder. */
module Seqs {

  datatype Option<T> = None | Some(value: T)

  /** `Where(...).Select(...)` in one pass: keep the elements `f` maps to `Some`, in order. */
  function FilterMap<T(!new), U(!new)>(f: T -> Option<U>, s: seq<T>): (r: seq<U>)
    ensures |r| <= |s|
  {
    if s == [] then []
    else
      var tail := FilterMap(f, s[1..]);
      match f(s[0])
      case Some(y) => [y] + tail
      case None => tail
  }

  /** `y` is kept iff some element maps to `Some(y)`. */
  lemma {:induction false} FilterMapMembers<T(!new), U(!new)>(f: T -> Option<U>, s: seq<T>)
    ensures forall y :: y in FilterMap(f, s) <==> exists x :: x in s && f(x) == Some(y)
    decreases |s|
  {
    if s != [] {
      FilterMapMembers(f, s[1..]);
      assert forall x :: x in s <==> x == s[0] || x in s[1..];
    }
  }

  lemma {:induction false} FilterMapAppend<T(!new), U(!new)>(f: T -> Option<U>, a: seq<T>, b: seq<T>)
    ensures FilterMap(f, a + b) == FilterMap(f, a) + FilterMap(f, b)
    decreases |a|
  {
    if a != [] {
      assert (a + b)[0] == a[0];
      assert (a + b)[1..] == a[1..] + b;
      FilterMapAppend(f, a[1..], b);
    } else {
      assert a + b == b;
    }
  }

  /** Only the multiset of the input matters for the multiset of the output: no element is merged away. */
  lemma {:induction false} FilterMapPermutation<T(!new), U(!new)>(f: T -> Option<U>, a: seq<T>, b: seq<T>)
    requires multiset(a) == multiset(b)
    ensures multiset(FilterMap(f, a)) == multiset(FilterMap(f, b))
    decreases |a|
  {
    if a == [] {
      assert |b| == |multiset(b)| == 0;
    } else {
      var x := a[0];
      assert x in multiset(b);
      var i :| 0 <= i < |b| && b[i] == x;
      var rest := b[..i] + b[i + 1..];
      assert b == b[..i] + [x] + b[i + 1..];
      assert a == [x] + a[1..];
      assert multiset(a) == multiset{x} + multiset(a[1..]);
      assert multiset(b) == multiset(b[..i]) + multiset{x} + multiset(b[i + 1..]);
      assert multiset(rest) == multiset(b[..i]) + multiset(b[i + 1..]);
      assert multiset(a[1..]) == multiset(a) - multiset{x};
      assert multiset(rest) == multiset(b) - multiset{x};
      FilterMapPermutation(f, a[1..], rest);
      FilterMapAppend(f, [x], a[1..]);
      FilterMapAppend(f, b[..i], b[i + 1..]);
      FilterMapAppend(f, b[..i] + [x], b[i + 1..]);
      FilterMapAppend(f, b[..i], [x]);
    }
  }
}
