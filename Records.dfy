/** What the services ask of a Mongoose collection, over an in-memory
    sequence of documents in insertion order: finding the first document whose
    key matches (`findById`, `findOne({email})`), removing one
    (`findByIdAndDelete`), and keys that stay unique (`_id`, the unique
    `email` index). */
module Records {
  import opened Wrappers

  /** The position of the first occurrence of `k` in `keys`. */
  function IndexOf<K(==)>(keys: seq<K>, k: K): (r: Option<nat>)
    ensures r.Some? ==> r.value < |keys| && keys[r.value] == k
    ensures r.Some? ==> forall j :: 0 <= j < r.value ==> keys[j] != k
    ensures r.None? <==> k !in keys
    decreases |keys|
  {
    if keys == [] then None
    else if keys[0] == k then Some(0)
    else
      match IndexOf(keys[1..], k)
      case None => None
      case Some(i) => Some(i + 1)
  }

  /** No key occurs twice. */
  ghost predicate Distinct<K>(keys: seq<K>) {
    forall i, j :: 0 <= i < j < |keys| ==> keys[i] != keys[j]
  }

  /** With unique keys, looking up the key at position i finds position i. */
  lemma IndexOfDistinct<K>(keys: seq<K>, i: nat)
    requires Distinct(keys) && i < |keys|
    ensures IndexOf(keys, keys[i]) == Some(i)
  {
  }

  /** `xs` without its element at position i; the others keep their order. */
  function RemoveAt<T>(xs: seq<T>, i: nat): (r: seq<T>)
    requires i < |xs|
    ensures |r| == |xs| - 1
    ensures forall j :: 0 <= j < i ==> r[j] == xs[j]
    ensures forall j :: i <= j < |r| ==> r[j] == xs[j + 1]
  {
    xs[..i] + xs[i + 1..]
  }

  /** Removing takes away exactly one occurrence of the removed element. */
  lemma RemoveAtMultiset<T>(xs: seq<T>, i: nat)
    requires i < |xs|
    ensures multiset(RemoveAt(xs, i)) + multiset{xs[i]} == multiset(xs)
  {
    assert xs == xs[..i] + [xs[i]] + xs[i + 1..];
  }

  /** Removing keeps the keys unique, and the removed key is gone. */
  lemma DistinctRemoveAt<K>(keys: seq<K>, i: nat)
    requires Distinct(keys) && i < |keys|
    ensures Distinct(RemoveAt(keys, i))
    ensures keys[i] !in RemoveAt(keys, i)
  {
    var r := RemoveAt(keys, i);
    forall j, l | 0 <= j < l < |r| ensures r[j] != r[l] {
      var j' := if j < i then j else j + 1;
      var l' := if l < i then l else l + 1;
      assert r[j] == keys[j'] && r[l] == keys[l'] && j' < l';
    }
    forall j | 0 <= j < |r| ensures r[j] != keys[i] {
      var j' := if j < i then j else j + 1;
      assert r[j] == keys[j'] && j' != i;
    }
  }

  /** Appending a new key keeps the keys unique. */
  lemma DistinctAppend<K>(keys: seq<K>, k: K)
    requires Distinct(keys) && k !in keys
    ensures Distinct(keys + [k])
  {
  }
}
