/** Facts about Java lists and the hash sets they are copied from. */
module Lists {

  /** No element occurs twice. */
  ghost predicate Distinct<T>(s: seq<T>) {
    forall i, j :: 0 <= i < j < |s| ==> s[i] != s[j]
  }

  /** The elements of a list, as a set. */
  ghost function Elements<T>(s: seq<T>): (elements: set<T>) {
    set x | x in s
  }

  /**
   * `new ArrayList<>(set)`: the elements of a hash set, each once, in the
   * set's iteration order. That order is not modelled: any order may come out.
   */
  method ToList<T(==)>(s: set<T>) returns (l: seq<T>)
    ensures |l| == |s|
    ensures Distinct(l)
    ensures Elements(l) == s
  {
    l := [];
    var rest := s;
    while rest != {}
      invariant rest <= s
      invariant |l| + |rest| == |s|
      invariant Distinct(l)
      invariant forall x :: x in l <==> x in s && x !in rest
      decreases |rest|
    {
      var x :| x in rest;
      l := l + [x];
      rest := rest - {x};
    }
  }

  /** The values a map gives to the keys in `ks`. */
  ghost function Image<K, V>(m: map<K, V>, ks: set<K>): (image: set<V>)
    requires ks <= m.Keys
  {
    set k | k in ks :: m[k]
  }

  /** Visiting one more key adds its value. */
  lemma ImageAdd<K, V>(m: map<K, V>, ks: set<K>, k: K)
    requires ks <= m.Keys && k in m
    ensures Image(m, ks + {k}) == Image(m, ks) + {m[k]}
  {
  }

  /** Visiting every key gives every value. */
  lemma ImageAll<K, V>(m: map<K, V>)
    ensures Image(m, m.Keys) == m.Values
  {
    forall v | v in m.Values ensures v in Image(m, m.Keys) {
      var k :| k in m && m[k] == v;
    }
  }
}
