/** Python's `dict` as the call-log code uses it: keys keep the order in which they
    were first inserted, and assigning to a present key replaces its value in place. */
module Dict {

  datatype Entry<K, V> = Entry(key: K, value: V)

  type Dict<K, V> = seq<Entry<K, V>>

  predicate HasKey<K(==), V>(d: Dict<K, V>, k: K)
  {
    exists i :: 0 <= i < |d| && d[i].key == k
  }

  /** No key occurs twice, which every Python dict satisfies. */
  ghost predicate DistinctKeys<K, V>(d: Dict<K, V>)
  {
    forall i, j :: 0 <= i < j < |d| ==> d[i].key != d[j].key
  }

  /** Position of the first entry with key `k`. */
  function IndexOf<K(==), V>(d: Dict<K, V>, k: K): (i: nat)
    requires HasKey(d, k)
    ensures i < |d| && d[i].key == k
    ensures forall j :: 0 <= j < i ==> d[j].key != k
  {
    if d[0].key == k then 0 else 1 + IndexOf(d[1..], k)
  }

  function Get<K(==), V>(d: Dict<K, V>, k: K): V
    requires HasKey(d, k)
  {
    d[IndexOf(d, k)].value
  }

  /** The first index holding `k` is the one `IndexOf` finds. */
  lemma IndexOfIsFirst<K, V>(d: Dict<K, V>, k: K, i: nat)
    requires i < |d| && d[i].key == k
    requires forall j :: 0 <= j < i ==> d[j].key != k
    ensures HasKey(d, k) && IndexOf(d, k) == i
  {
  }

  /** `d[k] = v`: a present key keeps its position, a new key goes last. */
  function Put<K(==, !new), V>(d: Dict<K, V>, k: K, v: V): (r: Dict<K, V>)
    ensures HasKey(r, k) && Get(r, k) == v
    ensures forall x :: x != k ==> (HasKey(r, x) <==> HasKey(d, x))
    ensures forall x :: x != k && HasKey(d, x) ==> Get(r, x) == Get(d, x)
    ensures HasKey(d, k) ==> r == d[IndexOf(d, k) := Entry(k, v)]
    ensures !HasKey(d, k) ==> r == d + [Entry(k, v)]
    ensures DistinctKeys(d) ==> DistinctKeys(r)
  {
    var r := if HasKey(d, k) then d[IndexOf(d, k) := Entry(k, v)] else d + [Entry(k, v)];
    assert forall j :: 0 <= j < |d| ==> r[j].key == d[j].key;
    IndexOfIsFirst(r, k, if HasKey(d, k) then IndexOf(d, k) else |d|);
    forall x | x != k && HasKey(d, x)
      ensures HasKey(r, x) && IndexOf(r, x) == IndexOf(d, x)
    {
      IndexOfIsFirst(r, x, IndexOf(d, x));
    }
    r
  }

  /** The value under the key inserted last (`d[list(d.keys())[-1]]`). */
  function LastValue<K, V>(d: Dict<K, V>): V
    requires d != []
  {
    d[|d| - 1].value
  }
}
