/**
 * A Python dict with string keys, as the JSON decoder builds it: the key/value
 * pairs in insertion order. Iterating the dict visits them in this order.
 */
module OrderedDict {
  import opened Optional

  type Dict<V> = seq<(string, V)>

  /** Every dict Python builds has distinct keys. */
  ghost predicate DistinctKeys<V>(d: Dict<V>) {
    forall i, j :: 0 <= i < j < |d| ==> d[i].0 != d[j].0
  }

  /** `k not in d` */
  ghost predicate KeyAbsent<V>(d: Dict<V>, k: string) {
    forall i :: 0 <= i < |d| ==> d[i].0 != k
  }

  /** `d.get(k)`: the value stored under `k`, or None when `k` is not a key. */
  function Get<V>(d: Dict<V>, k: string): (r: Option<V>)
    ensures r.None? <==> KeyAbsent(d, k)
    ensures r.Some? ==> exists i :: 0 <= i < |d| && d[i] == (k, r.value)
    ensures DistinctKeys(d) ==>
              forall i :: 0 <= i < |d| && d[i].0 == k ==> r == Some(d[i].1)
    decreases |d|
  {
    if |d| == 0 then None
    else if d[0].0 == k then Some(d[0].1)
    else Get(d[1..], k)
  }
}
