/**
 * PHP arrays used as dictionaries are ORDERED maps: keys are unique and
 * iteration follows insertion order. They are modelled as sequences of
 * key/value pairs with distinct keys. `$a[$k] = $v` replaces the value in
 * place when `$k` is present and appends otherwise (`Put`).
 */
module PhpArrays {
  import opened Wrappers
  import opened Sequences

  type OMap<K, V> = seq<(K, V)>

  function Keys<K, V>(m: OMap<K, V>): (ks: seq<K>)
    ensures |ks| == |m|
    ensures forall i :: 0 <= i < |m| ==> ks[i] == m[i].0
  {
    seq(|m|, i requires 0 <= i < |m| => m[i].0)
  }

  function Values<K, V>(m: OMap<K, V>): (vs: seq<V>)
    ensures |vs| == |m|
    ensures forall i :: 0 <= i < |m| ==> vs[i] == m[i].1
  {
    seq(|m|, i requires 0 <= i < |m| => m[i].1)
  }

  /** Keys are unique, as in every PHP array. */
  predicate IsMap<K(==), V>(m: OMap<K, V>) {
    Distinct(Keys(m))
  }

  /** `$m[$k] ?? null`. */
  function Get<K(==), V>(m: OMap<K, V>, k: K): (r: Option<V>)
    ensures r.Some? <==> k in Keys(m)
  {
    if k in Keys(m) then Some(m[IndexOf(Keys(m), k)].1) else None
  }

  /** `$m[$k] = $v`: replace in place when present, append otherwise. */
  function Put<K(==,!new), V>(m: OMap<K, V>, k: K, v: V): (r: OMap<K, V>)
    ensures Keys(r) == if k in Keys(m) then Keys(m) else Keys(m) + [k]
    ensures Get(r, k) == Some(v)
    ensures forall k' :: k' != k ==> Get(r, k') == Get(m, k')
    ensures IsMap(m) ==> IsMap(r)
    ensures forall i :: 0 <= i < |r| ==> r[i] in m || r[i] == (k, v)
  {
    if k in Keys(m) then
      var r := m[IndexOf(Keys(m), k) := (k, v)];
      assert Keys(r) == Keys(m);
      r
    else
      var r := m + [(k, v)];
      assert Keys(r) == Keys(m) + [k];
      forall k' | k' != k && k' in Keys(m) ensures Get(r, k') == Get(m, k') {
        IndexOfAppend(Keys(m), [k], k');
      }
      r
  }

  /** Every entry after `$m[$k] = $v` was in `m` or is the new one. */
  lemma PutEntry<K(!new), V>(m: OMap<K, V>, k: K, v: V, x: (K, V))
    requires x in Put(m, k, v)
    ensures x in m || x == (k, v)
  {
    var r := Put(m, k, v);
    var i :| 0 <= i < |r| && r[i] == x;
  }

  /** Successive `$m[$k] = $v` for the pairs of `ps`, in order. */
  function PutAll<K(==,!new), V>(m: OMap<K, V>, ps: seq<(K, V)>): OMap<K, V> {
    if ps == [] then m
    else
      var n := |ps| - 1;
      Put(PutAll(m, ps[..n]), ps[n].0, ps[n].1)
  }

  /** One more assignment after a run of them. */
  lemma PutAllSnoc<K(!new), V>(m: OMap<K, V>, ps: seq<(K, V)>, k: K, v: V)
    ensures PutAll(m, ps + [(k, v)]) == Put(PutAll(m, ps), k, v)
  {
    assert (ps + [(k, v)])[..|ps|] == ps;
  }

  /** Every entry after a run of assignments is an entry of `m` or one of the assigned pairs. */
  lemma {:induction false} PutAllEntries<K(!new), V>(m: OMap<K, V>, ps: seq<(K, V)>)
    ensures forall i :: 0 <= i < |PutAll(m, ps)| ==> PutAll(m, ps)[i] in m || PutAll(m, ps)[i] in ps
  {
    if ps != [] {
      var n := |ps| - 1;
      PutAllEntries(m, ps[..n]);
      var r := PutAll(m, ps);
      forall i | 0 <= i < |r| ensures r[i] in m || r[i] in ps {
        if r[i] != ps[n] {
          assert r[i] in PutAll(m, ps[..n]);
          var j :| 0 <= j < |PutAll(m, ps[..n])| && PutAll(m, ps[..n])[j] == r[i];
          assert r[i] in m || r[i] in ps[..n];
        }
      }
    }
  }

  /** The value paired with `k` by its LAST occurrence in `ps`. */
  function LastGet<K(==), V>(ps: seq<(K, V)>, k: K): (r: Option<V>)
    ensures r.Some? <==> k in Keys(ps)
  {
    if ps == [] then None
    else
      var n := |ps| - 1;
      assert Keys(ps) == Keys(ps[..n]) + [ps[n].0];
      if ps[n].0 == k then Some(ps[n].1) else LastGet(ps[..n], k)
  }

  /** After a run of assignments, a key holds the value of its last assignment. */
  lemma {:induction false} PutAllGet<K(!new), V>(m: OMap<K, V>, ps: seq<(K, V)>, k: K)
    ensures Get(PutAll(m, ps), k) == if k in Keys(ps) then LastGet(ps, k) else Get(m, k)
  {
    if ps != [] {
      var n := |ps| - 1;
      assert Keys(ps) == Keys(ps[..n]) + [ps[n].0];
      PutAllGet(m, ps[..n], k);
    }
  }

  /**
   * Assigning pairs to an empty array lists every key once, in the order
   * of its FIRST assignment, however often it is reassigned afterwards.
   */
  lemma {:induction false} PutAllKeys<K(!new), V>(ps: seq<(K, V)>)
    ensures Keys(PutAll([], ps)) == Dedup(Keys(ps))
  {
    if ps != [] {
      var n := |ps| - 1;
      assert Keys(ps) == Keys(ps[..n]) + [ps[n].0];
      assert Keys(ps)[..n] == Keys(ps[..n]);
      PutAllKeys(ps[..n]);
      var d := Dedup(Keys(ps[..n]));
      assert ps[n].0 in Keys(PutAll([], ps[..n])) <==> ps[n].0 in Keys(ps[..n]) by {
        assert ps[n].0 in d <==> ps[n].0 in Keys(ps[..n]);
      }
    }
  }

  lemma {:induction false} PutAllIsMap<K(!new), V>(m: OMap<K, V>, ps: seq<(K, V)>)
    requires IsMap(m)
    ensures IsMap(PutAll(m, ps))
  {
    if ps != [] {
      PutAllIsMap(m, ps[..|ps| - 1]);
    }
  }

  /** Assigning pairs with distinct keys to an empty array rebuilds exactly those pairs. */
  lemma {:induction false} PutAllDistinct<K(!new), V>(ps: seq<(K, V)>)
    requires IsMap(ps)
    ensures PutAll([], ps) == ps
  {
    if ps != [] {
      var n := |ps| - 1;
      assert Keys(ps) == Keys(ps[..n]) + [ps[n].0];
      assert IsMap(ps[..n]) by {
        assert Keys(ps[..n]) == Keys(ps)[..n];
      }
      PutAllDistinct(ps[..n]);
      assert ps[n].0 !in Keys(ps[..n]) by {
        forall i | 0 <= i < n ensures Keys(ps[..n])[i] != ps[n].0 {
          assert Keys(ps)[i] != Keys(ps)[n];
        }
      }
      assert PutAll([], ps) == Put(ps[..n], ps[n].0, ps[n].1);
      assert Put(ps[..n], ps[n].0, ps[n].1) == ps[..n] + [(ps[n].0, ps[n].1)];
      assert ps == ps[..n] + [ps[n]];
    }
  }

  /**
   * PHP's `array_slice($xs, $offset, $length)` on a list: a negative
   * offset counts from the end, a negative length stops that many
   * elements before the end, and an offset past the end gives [].
   */
  function Slice<T>(xs: seq<T>, offset: int, length: int): (r: seq<T>)
    ensures |r| <= |xs|
    ensures 0 <= offset && 0 <= length ==>
              r == xs[Min(offset, |xs|)..Min(offset + length, |xs|)]
  {
    var n := |xs|;
    if offset > n then []
    else
      var start := if offset >= 0 then offset else if n + offset < 0 then 0 else n + offset;
      var len := if length < 0 then n - start + length
                 else if start + length > n then n - start
                 else length;
      if len <= 0 then [] else xs[start..start + len]
  }

  function Min(a: int, b: int): int {
    if a <= b then a else b
  }

  function Max(a: int, b: int): int {
    if a >= b then a else b
  }

  /** PHP's `max($xs)` over a non-empty list of integers. */
  function MaxOf(xs: seq<int>): (r: int)
    requires xs != []
    ensures r in xs
    ensures forall i :: 0 <= i < |xs| ==> xs[i] <= r
  {
    if |xs| == 1 then xs[0] else Max(xs[0], MaxOf(xs[1..]))
  }
}
