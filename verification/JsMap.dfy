/** A JavaScript `Map`: a dictionary that remembers the order its keys were first set in. */
module JsMap {
  import opened Text

  datatype JsMap<K(==,!new), V> = JsMap(keys: seq<K>, vals: map<K, V>) {

    ghost predicate Valid() {
      && (forall i, j :: 0 <= i < j < |keys| ==> keys[i] != keys[j])
      && (forall k :: k in keys <==> k in vals)
    }

    predicate Has(k: K) { k in vals }

    function Get(k: K): Option<V> { if k in vals then Some(vals[k]) else None }

    function Size(): nat { |keys| }

    /** `map.set(k, v)`: a key already present keeps its place. */
    function Set(k: K, v: V): (m: JsMap<K, V>)
      requires Valid()
      ensures m.Valid()
      ensures m.vals == vals[k := v]
      ensures m.Size() == Size() + if Has(k) then 0 else 1
    {
      JsMap(if k in vals then keys else keys + [k], vals[k := v])
    }

    /** `map.delete(k)`. */
    function Delete(k: K): (m: JsMap<K, V>)
      requires Valid()
      ensures m.Valid()
      ensures m.vals == vals - {k}
      ensures m.Size() == Size() - if Has(k) then 1 else 0
    {
      if k !in vals then
        assert vals - {k} == vals;
        this
      else
        var i := IndexOf(keys, k);
        JsMap(keys[..i] + keys[i + 1..], vals - {k})
    }
  }

  function Empty<K(==,!new), V>(): (m: JsMap<K, V>)
    ensures m.Valid() && m.Size() == 0
  {
    JsMap([], map[])
  }

  function IndexOf<T(==)>(s: seq<T>, x: T): (i: nat)
    requires x in s
    ensures i < |s| && s[i] == x
    ensures forall j :: 0 <= j < i ==> s[j] != x
  {
    if s[0] == x then 0 else 1 + IndexOf(s[1..], x)
  }

  /** `delete` for each key in turn. */
  function DeleteAll<K(==,!new), V>(m: JsMap<K, V>, ks: seq<K>): (r: JsMap<K, V>)
    requires m.Valid()
    ensures r.Valid()
    ensures r.vals == m.vals - set k | k in ks
    ensures r.Size() <= m.Size()
  {
    if ks == [] then
      assert m.vals - {} == m.vals;
      m
    else
      var front, last := ks[..|ks| - 1], ks[|ks| - 1];
      assert ks == front + [last];
      DeleteAll(m, front).Delete(last)
  }

  lemma DeleteAllAppend<K(!new), V>(m: JsMap<K, V>, ks: seq<K>, k: K)
    requires m.Valid()
    ensures DeleteAll(m, ks + [k]) == DeleteAll(m, ks).Delete(k)
  {
    assert (ks + [k])[..|ks|] == ks;
  }

  lemma Survives<K(!new), V>(m: JsMap<K, V>, ks: seq<K>, k: K)
    requires m.Valid() && k in m.vals && k !in ks
    ensures k in DeleteAll(m, ks).vals && DeleteAll(m, ks).vals[k] == m.vals[k]
  {
  }

  // --- deleting while iterating -----------------------------------------------

  /** The keys whose entries satisfy `p`, in order. */
  function KeysWhere<K(==,!new), V>(m: JsMap<K, V>, p: (K, V) -> bool): (ks: seq<K>)
    requires m.Valid()
    ensures forall k :: k in ks <==> k in m.vals && p(k, m.vals[k])
    ensures |ks| <= m.Size()
  {
    Matching(m.keys, m.vals, p)
  }

  function Matching<K(==,!new), V>(keys: seq<K>, vals: map<K, V>, p: (K, V) -> bool): (ks: seq<K>)
    requires forall k :: k in keys ==> k in vals
    ensures forall k :: k in ks <==> k in keys && p(k, vals[k])
    ensures |ks| <= |keys|
  {
    if keys == [] then []
    else
      var front, last := keys[..|keys| - 1], keys[|keys| - 1];
      assert keys == front + [last];
      var rest := Matching(front, vals, p);
      if p(last, vals[last]) then rest + [last] else rest
  }

  lemma MatchingAppend<K(!new), V>(keys: seq<K>, key: K, vals: map<K, V>, p: (K, V) -> bool)
    requires key in vals && forall k :: k in keys ==> k in vals
    ensures Matching(keys + [key], vals, p)
            == if p(key, vals[key]) then Matching(keys, vals, p) + [key] else Matching(keys, vals, p)
  {
    assert (keys + [key])[..|keys|] == keys;
  }

  lemma {:induction false} MatchingCount<K(!new), V>(keys: seq<K>, vals: map<K, V>, p: (K, V) -> bool)
    requires (forall k :: k in keys ==> k in vals) && forall i, j :: 0 <= i < j < |keys| ==> keys[i] != keys[j]
    ensures |Matching(keys, vals, p)| == |set k | k in keys && p(k, vals[k])|
  {
    if keys == [] {
      assert (set k | k in keys && p(k, vals[k])) == {};
    } else {
      var front, last := keys[..|keys| - 1], keys[|keys| - 1];
      assert keys == front + [last];
      MatchingCount(front, vals, p);
      var before := set k | k in front && p(k, vals[k]);
      assert last !in front;
      assert (set k | k in keys && p(k, vals[k])) == if p(last, vals[last]) then before + {last} else before;
      hide Matching;
      MatchingAppend(front, last, vals, p);
    }
  }

  function KeySet<K(==,!new), V>(m: JsMap<K, V>, p: (K, V) -> bool): (ks: set<K>)
    ensures forall k :: k in ks <==> k in m.vals && p(k, m.vals[k])
  {
    set k | k in m.vals && p(k, m.vals[k])
  }

  /** Each key counts once. */
  lemma KeysWhereCount<K(!new), V>(m: JsMap<K, V>, p: (K, V) -> bool)
    requires m.Valid()
    ensures |KeysWhere(m, p)| == |KeySet(m, p)|
  {
    MatchingCount(m.keys, m.vals, p);
    assert (set k | k in m.keys && p(k, m.vals[k])) == KeySet(m, p);
  }

  /** What is left after deleting every entry that satisfies `p`. */
  function DeleteWhere<K(==,!new), V>(m: JsMap<K, V>, p: (K, V) -> bool): (r: JsMap<K, V>)
    requires m.Valid()
    ensures r.Valid() && r.Size() <= m.Size()
    ensures forall k :: k in r.vals <==> k in m.vals && !p(k, m.vals[k])
    ensures forall k :: k in r.vals ==> r.vals[k] == m.vals[k]
  {
    DeleteAll(m, KeysWhere(m, p))
  }

  lemma SweepStep<K(!new), V>(m: JsMap<K, V>, p: (K, V) -> bool, i: nat)
    requires m.Valid() && i < |m.keys|
    ensures var done, key := Matching(m.keys[..i], m.vals, p), m.keys[i];
            && key in DeleteAll(m, done).vals && DeleteAll(m, done).vals[key] == m.vals[key]
            && Matching(m.keys[..i + 1], m.vals, p) == (if p(key, m.vals[key]) then done + [key] else done)
            && DeleteAll(m, done + [key]) == DeleteAll(m, done).Delete(key)
  {
    hide DeleteAll;
    var done, key := Matching(m.keys[..i], m.vals, p), m.keys[i];
    assert m.keys[..i + 1] == m.keys[..i] + [key];
    MatchingAppend(m.keys[..i], key, m.vals, p);
    hide Matching;
    DeleteAllAppend(m, done, key);
    assert key !in m.keys[..i];
    Survives(m, done, key);
  }

  lemma {:induction false} SweptUpTo<K(!new), V>(m: JsMap<K, V>, p: (K, V) -> bool, i: nat)
    requires m.Valid() && i <= |m.keys|
    ensures var done := Matching(m.keys[..i], m.vals, p); |done| == m.Size() - DeleteAll(m, done).Size()
  {
    hide *;
    if i == 0 {
      NoneSwept(m, p);
    } else {
      SweptUpTo(m, p, i - 1);
      SweepStep(m, p, i - 1);
      OneSwept(m, p, i - 1);
    }
  }

  lemma NoneSwept<K(!new), V>(m: JsMap<K, V>, p: (K, V) -> bool)
    requires m.Valid()
    ensures Matching(m.keys[..0], m.vals, p) == [] && DeleteAll(m, []) == m
  {
  }

  lemma OneSwept<K(!new), V>(m: JsMap<K, V>, p: (K, V) -> bool, i: nat)
    requires m.Valid() && i < |m.keys|
    ensures var done, key := Matching(m.keys[..i], m.vals, p), m.keys[i];
            key in DeleteAll(m, done).vals ==> DeleteAll(m, done).Delete(key).Size() == DeleteAll(m, done).Size() - 1
  {
    hide Matching, DeleteAll;
  }

  /** As many go as satisfy the test. */
  lemma DroppedCount<K(!new), V>(m: JsMap<K, V>, p: (K, V) -> bool)
    requires m.Valid()
    ensures |KeysWhere(m, p)| == m.Size() - DeleteWhere(m, p).Size()
  {
    SweptUpTo(m, p, |m.keys|);
    assert m.keys[..|m.keys|] == m.keys;
  }

  /** `for (const [k, v] of map) if (p(k, v)) { map.delete(k); removed += 1; }` */
  method Sweep<K(==,!new), V>(m: JsMap<K, V>, p: (K, V) -> bool) returns (r: JsMap<K, V>, removed: nat)
    requires m.Valid()
    ensures r == DeleteWhere(m, p)
    ensures removed == |KeysWhere(m, p)| == m.Size() - r.Size()
  {
    r, removed := m, 0;
    assert m.keys[..0] == [];
    assert DeleteAll(m, Matching(m.keys[..0], m.vals, p)) == m;
    hide DeleteAll, Matching;
    for i := 0 to |m.keys|
      invariant r.Valid()
      invariant r == DeleteAll(m, Matching(m.keys[..i], m.vals, p))
      invariant removed == |Matching(m.keys[..i], m.vals, p)| == m.Size() - r.Size()
    {
      SweepStep(m, p, i);
      if p(m.keys[i], r.vals[m.keys[i]]) {
        r := r.Delete(m.keys[i]);
        removed := removed + 1;
      }
    }
    assert m.keys[..|m.keys|] == m.keys;
  }
}
