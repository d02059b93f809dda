/**
  Finite sets of keys listed in ascending order, for any strict total order
  on the keys. The records' ids are compared this way when the store is
  read sorted by id.
 */
module KeySets {
  import Common

  /** `lt` is a strict total order: irreflexive, transitive, and total on distinct keys. */
  ghost predicate StrictTotalOrder<K(!new)>(lt: (K, K) -> bool) {
    && (forall a :: !lt(a, a))
    && (forall a, b, c :: lt(a, b) && lt(b, c) ==> lt(a, c))
    && (forall a, b :: a != b ==> lt(a, b) || lt(b, a))
  }

  /** `m` is the least key of `s`. */
  predicate IsLeast<K>(lt: (K, K) -> bool, s: set<K>, m: K) {
    m in s && forall k :: k in s && k != m ==> lt(m, k)
  }

  /** Keys listed in strictly ascending order. */
  predicate Ascending<K>(lt: (K, K) -> bool, xs: seq<K>) {
    forall i, j :: 0 <= i < j < |xs| ==> lt(xs[i], xs[j])
  }

  lemma {:induction false} LeastExists<K(!new)>(lt: (K, K) -> bool, s: set<K>)
    requires StrictTotalOrder(lt) && s != {}
    ensures exists m :: IsLeast(lt, s, m)
    decreases |s|
  {
    var x := Common.Any(s);
    if s != {x} {
      LeastExists(lt, s - {x});
      var m :| IsLeast(lt, s - {x}, m);
      var least := if lt(x, m) then x else m;
      forall k | k in s && k != least ensures lt(least, k) {
        if k != x && k != m {
          assert k in s - {x};
        }
      }
      assert IsLeast(lt, s, least);
    } else {
      assert IsLeast(lt, s, x);
    }
  }

  /** A strict total order has at most one least key in a set. */
  lemma LeastUnique<K(!new)>(lt: (K, K) -> bool, s: set<K>, m1: K, m2: K)
    requires StrictTotalOrder(lt) && IsLeast(lt, s, m1) && IsLeast(lt, s, m2)
    ensures m1 == m2
  {
    if m1 != m2 {
      assert false;
    }
  }

  /** The least key of a non-empty set. */
  function Least<K(!new)>(lt: (K, K) -> bool, s: set<K>): (m: K)
    requires StrictTotalOrder(lt) && s != {}
    ensures m in s && forall k :: k in s && k != m ==> lt(m, k)
  {
    LeastExists(lt, s);
    forall m1, m2 | IsLeast(lt, s, m1) && IsLeast(lt, s, m2) ensures m1 == m2 {
      LeastUnique(lt, s, m1, m2);
    }
    var m :| IsLeast(lt, s, m); m
  }

  /** The keys of a set in ascending order. */
  function SortedKeys<K(!new)>(lt: (K, K) -> bool, s: set<K>): (r: seq<K>)
    requires StrictTotalOrder(lt)
    ensures |r| == |s|
    ensures forall k :: k in s <==> k in r
    ensures Ascending(lt, r)
    decreases |s|
  {
    if s == {} then []
    else
      var m := Least(lt, s);
      var rest := SortedKeys(lt, s - {m});
      assert forall i :: 0 <= i < |rest| ==> lt(m, rest[i]);
      [m] + rest
  }
}
