/** Sums over finite sets, in no particular order: what a range over a Go map accumulates. */
module FiniteSums {
  import opened Wrappers

  ghost function SumOver<K(!new)>(keys: set<K>, f: K -> nat): nat {
    if keys == {} then 0
    else
      var k := Pick(keys);
      f(k) + SumOver(keys - {k}, f)
  }

  // Any element may be taken first.
  lemma {:induction false} SumRemove<K(!new)>(keys: set<K>, f: K -> nat, k: K)
    requires k in keys
    ensures SumOver(keys, f) == f(k) + SumOver(keys - {k}, f)
    decreases |keys|
  {
    var first := Pick(keys);
    if k != first {
      SumRemove(keys - {first}, f, k);
      SumRemove(keys - {k}, f, first);
      assert keys - {first} - {k} == keys - {k} - {first};
    }
  }

  lemma {:induction false} SumSame<K(!new)>(keys: set<K>, f: K -> nat, g: K -> nat)
    requires forall k :: k in keys ==> f(k) == g(k)
    ensures SumOver(keys, f) == SumOver(keys, g)
    decreases |keys|
  {
    if keys != {} {
      SumSame(keys - {Pick(keys)}, f, g);
    }
  }

  lemma {:induction false} SumUnion<K(!new)>(a: set<K>, b: set<K>, f: K -> nat)
    requires a !! b
    ensures SumOver(a + b, f) == SumOver(a, f) + SumOver(b, f)
    decreases |a|
  {
    if a == {} {
      assert a + b == b;
    } else {
      var k := Pick(a);
      SumRemove(a + b, f, k);
      assert a + b - {k} == (a - {k}) + b;
      SumUnion(a - {k}, b, f);
    }
  }

  // Adding v at one key adds v to the sum.
  lemma {:induction false} SumBump<K(!new)>(keys: set<K>, f: K -> nat, g: K -> nat, q: K, v: nat)
    requires q in keys
    requires forall k :: k in keys ==> g(k) == f(k) + if k == q then v else 0
    ensures SumOver(keys, g) == SumOver(keys, f) + v
  {
    SumRemove(keys, f, q);
    SumRemove(keys, g, q);
    SumSame(keys - {q}, f, g);
  }

  // Halving every term loses at most half of each.
  lemma {:induction false} SumHalves<K(!new)>(keys: set<K>, whole: K -> nat, half: K -> nat)
    requires forall k :: k in keys ==> half(k) == whole(k) / 2
    ensures 2 * SumOver(keys, half) <= SumOver(keys, whole) <= 2 * SumOver(keys, half) + |keys|
    decreases |keys|
  {
    if keys != {} {
      SumHalves(keys - {Pick(keys)}, whole, half);
    }
  }

  lemma {:induction false} SumZero<K(!new)>(keys: set<K>, f: K -> nat)
    requires forall k :: k in keys ==> f(k) == 0
    ensures SumOver(keys, f) == 0
    decreases |keys|
  {
    if keys != {} {
      SumZero(keys - {Pick(keys)}, f);
    }
  }
}
