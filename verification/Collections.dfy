/** Python containers the modelled services are built on. */
module Collections {

  datatype Option<+T> = None | Some(value: T)

  ghost predicate NoDuplicates<T>(s: seq<T>) {
    forall i, j :: 0 <= i < j < |s| ==> s[i] != s[j]
  }

  /** The sequence without its first occurrence of x. */
  function Without<T(==)>(s: seq<T>, x: T): seq<T> {
    if s == [] then []
    else if s[0] == x then s[1..]
    else [s[0]] + Without(s[1..], x)
  }

  lemma {:induction false} WithoutFacts<T(!new)>(s: seq<T>, x: T)
    ensures NoDuplicates(s) ==> NoDuplicates(Without(s, x)) && forall y :: y in Without(s, x) <==> y in s && y != x
    ensures x !in s ==> Without(s, x) == s
  {
    if s != [] {
      WithoutFacts(s[1..], x);
      assert s == [s[0]] + s[1..];
      assert NoDuplicates(s) ==> s[0] !in s[1..];
    }
  }

  /** A Python dict: a map that also remembers the order in which its keys were first inserted. */
  datatype Dict<K(==), V> = Dict(keys: seq<K>, items: map<K, V>) {

    /** Assigning to a key: a new key goes to the end, an existing one keeps its place. */
    function Put(k: K, v: V): Dict<K, V> {
      Dict(if k in items then keys else keys + [k], items[k := v])
    }

    /** The dict left behind when a key is deleted. */
    function Remove(k: K): Dict<K, V> {
      Dict(Without(keys, k), items - {k})
    }
  }

  /** The keys of a well-formed dict are the map's, each once. */
  ghost predicate WellFormed<K(!new), V>(d: Dict<K, V>) {
    NoDuplicates(d.keys) && forall k :: k in d.keys <==> k in d.items
  }

  /** Distinct keys are counted by the map's size. */
  lemma {:induction false} DistinctCount<T(!new)>(s: seq<T>, elems: set<T>)
    requires NoDuplicates(s)
    requires forall x :: x in s <==> x in elems
    ensures |s| == |elems|
  {
    if s == [] {
      assert elems == {};
    } else {
      var rest := s[1..];
      assert s == [s[0]] + rest;
      assert forall x :: x in rest <==> x in elems - {s[0]};
      DistinctCount(rest, elems - {s[0]});
    }
  }

  lemma SubsetSize<T>(a: set<T>, b: set<T>)
    requires a <= b
    ensures |a| <= |b|
  {
    assert |b| == |a + (b - a)| == |a| + |b - a|;
  }
}
