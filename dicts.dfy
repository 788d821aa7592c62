/** Python dicts as the decomposer uses them: entries in insertion order,
    assignment to an existing key keeping its place, and the reversed dict
    `{v: k for k, v in d.items()}` in which a later entry wins. */
module Dicts {
  import opened Wrappers

  type Dict<K, V> = seq<(K, V)>

  function Keys<K, V>(d: Dict<K, V>): (r: seq<K>)
    ensures |r| == |d| && forall i :: 0 <= i < |d| ==> r[i] == d[i].0
  {
    seq(|d|, i requires 0 <= i < |d| => d[i].0)
  }

  predicate DistinctKeys<K(==), V>(d: Dict<K, V>)
  {
    forall i, j :: 0 <= i < j < |d| ==> d[i].0 != d[j].0
  }

  predicate HasKey<K(==), V>(d: Dict<K, V>, k: K)
  {
    k in Keys(d)
  }

  /** The position of the first entry under `k`. */
  function Find<K(==), V>(d: Dict<K, V>, k: K): (i: nat)
    requires HasKey(d, k)
    ensures i < |d| && d[i].0 == k
    ensures forall j :: 0 <= j < i ==> d[j].0 != k
  {
    if d[0].0 == k then 0
    else
      assert Keys(d) == [d[0].0] + Keys(d[1..]);
      1 + Find(d[1..], k)
  }

  /** `d.get(k)` */
  function Get<K(==), V>(d: Dict<K, V>, k: K): (r: Option<V>)
    ensures r.Some? <==> HasKey(d, k)
    ensures r.Some? ==> (k, r.value) in d
    ensures DistinctKeys(d) ==> forall i :: 0 <= i < |d| && d[i].0 == k ==> r == Some(d[i].1)
  {
    if HasKey(d, k) then Some(d[Find(d, k)].1) else None
  }

  /** `d[k] = v`: an existing key keeps its place, a new one goes last. */
  function Put<K(==), V>(d: Dict<K, V>, k: K, v: V): (r: Dict<K, V>)
    ensures HasKey(d, k) ==> |r| == |d|
    ensures !HasKey(d, k) ==> r == d + [(k, v)]
    ensures forall i :: 0 <= i < |d| ==> r[i] == (if d[i].0 == k then (k, v) else d[i])
    ensures HasKey(r, k)
  {
    if HasKey(d, k) then
      var r := seq(|d|, i requires 0 <= i < |d| => if d[i].0 == k then (k, v) else d[i]);
      assert Keys(r)[Find(d, k)] == k;
      r
    else
      assert Keys(d + [(k, v)])[|d|] == k;
      d + [(k, v)]
  }

  lemma PutSpec<K, V>(d: Dict<K, V>, k: K, v: V)
    requires DistinctKeys(d)
    ensures DistinctKeys(Put(d, k, v))
    ensures Get(Put(d, k, v), k) == Some(v)
    ensures forall k' :: k' != k ==> Get(Put(d, k, v), k') == Get(d, k')
  {
    var r := Put(d, k, v);
    forall k' | k' != k
      ensures Get(r, k') == Get(d, k')
    {
      if HasKey(d, k') {
        var i := Find(d, k');
        assert Keys(r)[i] == k';
      }
      if HasKey(r, k') {
        var i := Find(r, k');
        assert i < |d| && Keys(d)[i] == k';
      }
    }
  }

  /** An entry of the updated dict is an old entry or the new one, and every
      old key is still present. */
  lemma PutMembers<K, V>(d: Dict<K, V>, k: K, v: V)
    ensures forall e :: e in Put(d, k, v) ==> e in d || e == (k, v)
    ensures forall k' :: HasKey(d, k') ==> HasKey(Put(d, k, v), k')
  {
    var r := Put(d, k, v);
    forall e | e in r ensures e in d || e == (k, v) {
      var i :| 0 <= i < |r| && r[i] == e;
      if i < |d| {
        assert r[i] == (if d[i].0 == k then (k, v) else d[i]);
      }
    }
    forall k' | HasKey(d, k') ensures HasKey(r, k') {
      var i := Find(d, k');
      assert Keys(r)[i] == k';
    }
  }

  /** `del d[k]`; KeyError when the key is absent. The entry found is the
      only one under `k` when the keys are distinct, as a dict's are. */
  function Remove<K(==), V>(d: Dict<K, V>, k: K): (r: Result<Dict<K, V>>)
    ensures r.Ok? <==> HasKey(d, k)
    ensures r.Err? ==> r.error == KeyError
    ensures r.Ok? ==> |r.value| == |d| - 1
    ensures r.Ok? ==> forall e :: e in r.value ==> e in d
    ensures r.Ok? ==> forall i :: 0 <= i < |d| && d[i].0 != k ==> d[i] in r.value
    ensures r.Ok? && DistinctKeys(d) ==>
              DistinctKeys(r.value) && !HasKey(r.value, k) && forall e :: e in r.value ==> e.0 != k
  {
    if !HasKey(d, k) then Err(KeyError)
    else
      var i := Find(d, k);
      var r := d[..i] + d[i + 1..];
      RemoveAt(d, i);
      Ok(r)
  }

  lemma RemoveAt<K, V>(d: Dict<K, V>, i: nat)
    requires i < |d|
    ensures forall j :: 0 <= j < |d| && j != i ==> d[j] in d[..i] + d[i + 1..]
    ensures DistinctKeys(d) ==> DistinctKeys(d[..i] + d[i + 1..])
    ensures DistinctKeys(d) ==> forall e :: e in d[..i] + d[i + 1..] ==> e.0 != d[i].0
    ensures DistinctKeys(d) ==> !HasKey(d[..i] + d[i + 1..], d[i].0)
  {
    var r := d[..i] + d[i + 1..];
    forall j | 0 <= j < |d| && j != i ensures d[j] in r {
      var x := if j < i then j else j - 1;
      Shifted(d, i, x);
    }
    if DistinctKeys(d) {
      forall x, y | 0 <= x < y < |r| ensures r[x].0 != r[y].0 {
        Shifted(d, i, x);
        Shifted(d, i, y);
      }
      forall e | e in r ensures e.0 != d[i].0 {
        var x :| 0 <= x < |r| && r[x] == e;
        Shifted(d, i, x);
      }
      assert !HasKey(r, d[i].0) by {
        forall x | 0 <= x < |r| ensures Keys(r)[x] != d[i].0 {
          assert r[x] in r;
        }
      }
    }
  }

  /** Entry `x` of `d` without its entry `i`. */
  lemma Shifted<K, V>(d: Dict<K, V>, i: nat, x: nat)
    requires i < |d| && x < |d| - 1
    ensures (d[..i] + d[i + 1..])[x] == if x < i then d[x] else d[x + 1]
  {
  }

  /** The key of the last entry holding `v`. */
  function LastKeyOf<K(==), V(==)>(d: Dict<K, V>, v: V): (r: Option<K>)
    ensures r.None? <==> forall i :: 0 <= i < |d| ==> d[i].1 != v
    ensures r.Some? ==> exists i :: 0 <= i < |d| && d[i] == (r.value, v) && LaterMiss(d, i, v)
  {
    if d == [] then None
    else if d[|d| - 1].1 == v then Some(d[|d| - 1].0)
    else
      var front := d[..|d| - 1];
      var r := LastKeyOf(front, v);
      assert forall i :: 0 <= i < |front| ==> front[i] == d[i];
      if r.Some? then
        var i :| 0 <= i < |front| && front[i] == (r.value, v) && LaterMiss(front, i, v);
        assert LaterMiss(d, i, v);
        r
      else r
  }

  /** No entry after position `i` holds `v`. */
  predicate LaterMiss<K, V(==)>(d: Dict<K, V>, i: nat, v: V)
  {
    forall j :: i < j < |d| ==> d[j].1 != v
  }

  /** `{v: k for k, v in d.items()}` */
  function Invert<K(==), V(==)>(d: Dict<K, V>): Dict<V, K>
  {
    if d == [] then [] else Put(Invert(d[..|d| - 1]), d[|d| - 1].1, d[|d| - 1].0)
  }

  /** Looking a value up in the reversed dict finds the key of the last
      entry holding it. */
  lemma {:induction false} InvertGet<K, V>(d: Dict<K, V>, v: V)
    ensures DistinctKeys(Invert(d))
    ensures Get(Invert(d), v) == LastKeyOf(d, v)
  {
    if d != [] {
      var front := d[..|d| - 1];
      InvertGet(front, v);
      PutSpec(Invert(front), d[|d| - 1].1, d[|d| - 1].0);
    }
  }
}
