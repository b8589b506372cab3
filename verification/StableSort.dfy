/** The library's stable sorts by a comparison (sort.SliceStable, sort.Float64s). */
module StableSort {
  import opened Wrappers

  // Not-before is transitive, as it is for any comparison of keys.
  ghost predicate Order<T(!new)>(before: (T, T) -> bool) {
    (forall x, y :: before(x, y) ==> !before(y, x)) &&
    (forall x, y, z :: !before(y, x) && !before(z, y) ==> !before(z, x))
  }

  ghost predicate Sorted<T>(s: seq<T>, before: (T, T) -> bool) {
    forall i, j :: 0 <= i < j < |s| ==> !before(s[j], s[i])
  }

  lemma SortedCons<T>(x: T, s: seq<T>, before: (T, T) -> bool)
    requires Sorted(s, before)
    requires forall y :: y in s ==> !before(y, x)
    ensures Sorted([x] + s, before)
  {
    var xs := [x] + s;
    forall i, j | 0 <= i < j < |xs|
      ensures !before(xs[j], xs[i])
    {
      assert xs[j] == s[j - 1] && xs[j] in s;
      if i > 0 {
        assert xs[i] == s[i - 1];
      }
    }
  }

  lemma SortedTail<T>(s: seq<T>, before: (T, T) -> bool)
    requires s != [] && Sorted(s, before)
    ensures Sorted(s[1..], before) && s == [s[0]] + s[1..]
    ensures forall y :: y in s[1..] ==> !before(y, s[0])
  {
    forall y | y in s[1..]
      ensures !before(y, s[0])
    {
      var j :| 0 <= j < |s[1..]| && s[1..][j] == y;
      assert s[j + 1] == y;
    }
  }

  // An element goes in front of those it does not follow, so equal ones keep their order.
  function Insert<T(!new)>(x: T, s: seq<T>, before: (T, T) -> bool): (r: seq<T>)
    requires Order(before) && Sorted(s, before)
    ensures Sorted(r, before) && multiset(r) == multiset(s) + multiset{x}
  {
    if s == [] then [x]
    else
      SortedTail(s, before);
      if before(s[0], x) then
        var rest := Insert(x, s[1..], before);
        assert forall y :: y in rest ==> y in multiset(rest);
        SortedCons(s[0], rest, before);
        [s[0]] + rest
      else
        SortedCons(x, s, before);
        [x] + s
  }

  function Sort<T(!new)>(s: seq<T>, before: (T, T) -> bool): (r: seq<T>)
    requires Order(before)
    ensures Sorted(r, before) && multiset(r) == multiset(s) && |r| == |s|
  {
    if s == [] then []
    else
      assert s == [s[0]] + s[1..];
      var r := Insert(s[0], Sort(s[1..], before), before);
      assert |r| == |multiset(r)| == |multiset(s)|;
      r
  }

  // Sorting what is sorted changes nothing.
  lemma {:induction false} SortOfSorted<T(!new)>(s: seq<T>, before: (T, T) -> bool)
    requires Order(before) && Sorted(s, before)
    ensures Sort(s, before) == s
    decreases |s|
  {
    if s != [] {
      SortedTail(s, before);
      SortOfSorted(s[1..], before);
      if |s| > 1 {
        assert s[1] in s[1..];
      }
    }
  }

  lemma {:induction false} OnceEach<T>(s: seq<T>)
    requires NoRepeats(s)
    ensures forall x :: multiset(s)[x] <= 1
    decreases |s|
  {
    if s != [] {
      OnceEach(s[1..]);
      assert s == [s[0]] + s[1..];
      assert s[0] !in s[1..];
    }
  }

  // A permutation repeats nothing that was not repeated.
  lemma NoRepeatsPermuted<T>(s: seq<T>, r: seq<T>)
    requires NoRepeats(s) && multiset(r) == multiset(s)
    ensures NoRepeats(r) && forall x :: x in r <==> x in s
  {
    OnceEach(s);
    forall i, j | 0 <= i < j < |r|
      ensures r[i] != r[j]
    {
      assert r == r[..j] + [r[j]] + r[j + 1..];
      assert r[i] == r[..j][i] && multiset(r[..j])[r[i]] >= 1;
      assert multiset(r)[r[j]] == multiset(r[..j])[r[j]] + 1 + multiset(r[j + 1..])[r[j]];
    }
    forall x
      ensures x in r <==> x in s
    {
      assert x in multiset(r) <==> x in multiset(s);
    }
  }
}
