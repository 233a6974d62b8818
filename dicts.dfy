/**
 * Python dictionaries as the reporting code uses them: keys kept in the
 * order they were first inserted, assignment to an existing key replacing
 * its value in place, assignment to a new key appending it.
 */
module OrderedDicts {

  import opened Wrappers

  /** A dictionary as its items in iteration order. */
  type Dict<K(==), V> = seq<(K, V)>

  function Keys<K(==), V>(d: Dict<K, V>): (ks: seq<K>)
    ensures |ks| == |d|
  {
    seq(|d|, i requires 0 <= i < |d| => d[i].0)
  }

  /** Every Python dict has this shape: no key twice. */
  predicate DistinctKeys<K(==), V>(d: Dict<K, V>)
  {
    forall i, j :: 0 <= i < j < |d| ==> d[i].0 != d[j].0
  }

  predicate Distinct<K(==)>(ks: seq<K>)
  {
    forall i, j :: 0 <= i < j < |ks| ==> ks[i] != ks[j]
  }

  /** d[k], or None where Python raises KeyError. */
  function Get<K(==), V>(d: Dict<K, V>, k: K): (r: Option<V>)
    ensures r.Some? <==> k in Keys(d)
  {
    if d == [] then None
    else
      assert Keys(d) == [d[0].0] + Keys(d[1..]);
      if d[0].0 == k then Some(d[0].1) else Get(d[1..], k)
  }

  /** d[k] = v. */
  function Put<K(==), V>(d: Dict<K, V>, k: K, v: V): Dict<K, V>
  {
    if d == [] then [(k, v)]
    else if d[0].0 == k then [(k, v)] + d[1..]
    else [d[0]] + Put(d[1..], k, v)
  }

  lemma {:induction false} PutKeys<K, V>(d: Dict<K, V>, k: K, v: V)
    ensures Keys(Put(d, k, v)) == if k in Keys(d) then Keys(d) else Keys(d) + [k]
  {
    if d != [] {
      assert Keys(d) == [d[0].0] + Keys(d[1..]);
      if d[0].0 != k {
        PutKeys(d[1..], k, v);
        assert Keys(Put(d, k, v)) == [d[0].0] + Keys(Put(d[1..], k, v));
      } else {
        assert Keys(Put(d, k, v)) == [k] + Keys(d[1..]);
      }
    }
  }

  /** After d[k] = v, d[k] is v and every other key keeps its value. */
  lemma {:induction false} PutGet<K, V>(d: Dict<K, V>, k: K, v: V, j: K)
    requires DistinctKeys(d)
    ensures Get(Put(d, k, v), j) == if j == k then Some(v) else Get(d, j)
  {
    if d != [] {
      if d[0].0 != k {
        PutGet(d[1..], k, v, j);
      } else if j != k {
        assert Get(Put(d, k, v), j) == Get(d[1..], j);
      }
    }
  }

  lemma {:induction false} PutDistinct<K, V>(d: Dict<K, V>, k: K, v: V)
    requires DistinctKeys(d)
    ensures DistinctKeys(Put(d, k, v))
  {
    PutKeys(d, k, v);
    var r := Put(d, k, v);
    forall i, j | 0 <= i < j < |r| ensures r[i].0 != r[j].0 {
      assert Keys(r)[i] == r[i].0 && Keys(r)[j] == r[j].0;
      if j >= |d| {
        assert Keys(r)[i] == Keys(d)[i];
      } else {
        assert Keys(d)[i] == d[i].0 && Keys(d)[j] == d[j].0;
      }
    }
  }

  lemma KeysDistinct<K, V>(d: Dict<K, V>)
    ensures DistinctKeys(d) <==> Distinct(Keys(d))
  {
    if DistinctKeys(d) {
      forall i, j | 0 <= i < j < |d| ensures Keys(d)[i] != Keys(d)[j] {
        assert Keys(d)[i] == d[i].0;
      }
    }
    if Distinct(Keys(d)) {
      forall i, j | 0 <= i < j < |d| ensures d[i].0 != d[j].0 {
        assert Keys(d)[i] == d[i].0 && Keys(d)[j] == d[j].0;
      }
    }
  }

  /** The keys of ks in order of first occurrence. */
  function Dedup<K(==)>(ks: seq<K>): (r: seq<K>)
  {
    if ks == [] then []
    else
      var d := Dedup(ks[..|ks| - 1]);
      if ks[|ks| - 1] in d then d else d + [ks[|ks| - 1]]
  }

  /** Dedup keeps each key once and drops no key. */
  lemma {:induction false} DedupProperties<K>(ks: seq<K>)
    ensures Distinct(Dedup(ks))
    ensures forall x :: x in Dedup(ks) <==> x in ks
  {
    if ks != [] {
      var init := ks[..|ks| - 1];
      DedupProperties(init);
      assert ks == init + [ks[|ks| - 1]];
    }
  }

  /** The value of each key after the assignments d[k] = v of kvs, made in
      order: the last one wins, and the key keeps the place of its first. */
  function PutAll<K(==), V>(d: Dict<K, V>, kvs: seq<(K, V)>): Dict<K, V>
  {
    if kvs == [] then d
    else
      var last := kvs[|kvs| - 1];
      Put(PutAll(d, kvs[..|kvs| - 1]), last.0, last.1)
  }

  /** The value of the last pair of kvs with key k. */
  function LastValue<K(==), V>(kvs: seq<(K, V)>, k: K): Option<V>
  {
    if kvs == [] then None
    else if kvs[|kvs| - 1].0 == k then Some(kvs[|kvs| - 1].1)
    else LastValue(kvs[..|kvs| - 1], k)
  }

  /** A pair that no later pair overrides gives its key's last value. */
  lemma {:induction false} LastValueAt<K, V>(kvs: seq<(K, V)>, i: nat)
    requires i < |kvs|
    requires forall j :: i < j < |kvs| ==> kvs[j].0 != kvs[i].0
    ensures LastValue(kvs, kvs[i].0) == Some(kvs[i].1)
  {
    if i < |kvs| - 1 {
      var init := kvs[..|kvs| - 1];
      assert init[i] == kvs[i];
      forall j | i < j < |init| ensures init[j].0 != init[i].0 {
        assert init[j] == kvs[j];
      }
      LastValueAt(init, i);
    }
  }

  /** A key no pair carries has no last value. */
  lemma {:induction false} LastValueAbsent<K, V>(kvs: seq<(K, V)>, k: K)
    requires forall j :: 0 <= j < |kvs| ==> kvs[j].0 != k
    ensures LastValue(kvs, k) == None
  {
    if kvs != [] {
      var init := kvs[..|kvs| - 1];
      assert forall j :: 0 <= j < |init| ==> init[j] == kvs[j];
      LastValueAbsent(init, k);
    }
  }

  /** Inserting pairs into an empty dict: the keys in order of first
      insertion, each holding the value inserted last. */
  lemma {:induction false} PutAllFromEmpty<K, V>(kvs: seq<(K, V)>)
    ensures DistinctKeys(PutAll([], kvs))
    ensures Keys(PutAll([], kvs)) == Dedup(Keys(kvs))
    ensures forall k :: Get(PutAll([], kvs), k) == LastValue(kvs, k)
  {
    if kvs != [] {
      var init := kvs[..|kvs| - 1];
      var last := kvs[|kvs| - 1];
      PutAllFromEmpty(init);
      var d := PutAll([], init);
      PutKeys(d, last.0, last.1);
      PutDistinct(d, last.0, last.1);
      assert Keys(init) == Keys(kvs)[..|kvs| - 1];
      forall k ensures Get(PutAll([], kvs), k) == LastValue(kvs, k) {
        PutGet(d, last.0, last.1, k);
      }
    }
  }

  /** Reading a key of d + [last]: last's value for its own key, d's otherwise. */
  lemma {:induction false} GetSnoc<K, V>(d: Dict<K, V>, last: (K, V))
    requires last.0 !in Keys(d)
    ensures forall x :: Get(d + [last], x) == if x == last.0 then Some(last.1) else Get(d, x)
    decreases |d|
  {
    if d != [] {
      assert Keys(d) == [d[0].0] + Keys(d[1..]);
      assert (d + [last])[1..] == d[1..] + [last];
      GetSnoc(d[1..], last);
    }
  }

  /** A dict split before its last item: that item's key is new. */
  lemma LastKeyFresh<K, V>(d: Dict<K, V>)
    requires DistinctKeys(d) && d != []
    ensures d == d[..|d| - 1] + [d[|d| - 1]]
    ensures Keys(d) == Keys(d[..|d| - 1]) + [d[|d| - 1].0]
    ensures DistinctKeys(d[..|d| - 1])
    ensures d[|d| - 1].0 !in Keys(d[..|d| - 1])
  {
    var init := d[..|d| - 1];
    forall i | 0 <= i < |init| ensures Keys(init)[i] != d[|d| - 1].0 {
      assert Keys(init)[i] == d[i].0;
    }
  }

  /** Dedup leaves a sequence without repeats as it is. */
  lemma {:induction false} DedupOfDistinct<K>(ks: seq<K>)
    requires Distinct(ks)
    ensures Dedup(ks) == ks
  {
    if ks != [] {
      var init := ks[..|ks| - 1];
      DedupOfDistinct(init);
      DedupProperties(init);
      assert ks[|ks| - 1] !in init;
      assert ks == init + [ks[|ks| - 1]];
    }
  }

  /** Two runs of assignments are one run of both. */
  lemma {:induction false} PutAllAppend<K, V>(d: Dict<K, V>, a: seq<(K, V)>, b: seq<(K, V)>)
    ensures PutAll(PutAll(d, a), b) == PutAll(d, a + b)
    decreases |b|
  {
    if b == [] {
      assert a + b == a;
    } else {
      PutAllAppend(d, a, b[..|b| - 1]);
      assert (a + b)[..|a + b| - 1] == a + b[..|b| - 1];
    }
  }

  /** Assigning a new key appends it. */
  lemma {:induction false} PutNew<K, V>(d: Dict<K, V>, k: K, v: V)
    requires k !in Keys(d)
    ensures Put(d, k, v) == d + [(k, v)]
  {
    if d != [] {
      assert Keys(d) == [d[0].0] + Keys(d[1..]);
      PutNew(d[1..], k, v);
      assert d == [d[0]] + d[1..];
    }
  }

  /** Assignments to distinct keys build the dict in their order. */
  lemma {:induction false} PutAllOfDistinct<K, V>(kvs: seq<(K, V)>)
    requires DistinctKeys(kvs)
    ensures PutAll([], kvs) == kvs
  {
    if kvs != [] {
      LastKeyFresh(kvs);
      PutAllOfDistinct(kvs[..|kvs| - 1]);
      PutNew(kvs[..|kvs| - 1], kvs[|kvs| - 1].0, kvs[|kvs| - 1].1);
    }
  }

  /** Reading the key of an item gives its value. */
  lemma {:induction false} GetAt<K, V>(d: Dict<K, V>, i: nat)
    requires DistinctKeys(d) && i < |d|
    ensures Get(d, d[i].0) == Some(d[i].1)
  {
    if i > 0 {
      assert d[0].0 != d[i].0;
      assert d[1..][i - 1] == d[i];
      GetAt(d[1..], i - 1);
    }
  }

  /** An assignment keeps a property every value has. */
  lemma {:induction false} PutValues<K, V>(d: Dict<K, V>, k: K, v: V, P: V -> bool)
    requires forall i :: 0 <= i < |d| ==> P(d[i].1)
    requires P(v)
    ensures forall i :: 0 <= i < |Put(d, k, v)| ==> P(Put(d, k, v)[i].1)
  {
    if d != [] && d[0].0 != k {
      PutValues(d[1..], k, v, P);
      var r := Put(d, k, v);
      forall i | 0 <= i < |r| ensures P(r[i].1) {
        if i > 0 {
          assert r[i] == Put(d[1..], k, v)[i - 1];
        }
      }
    }
  }

  /** Assignments of values with a property keep it for every value. */
  lemma {:induction false} PutAllValues<K, V>(kvs: seq<(K, V)>, P: V -> bool)
    requires forall i :: 0 <= i < |kvs| ==> P(kvs[i].1)
    ensures forall i :: 0 <= i < |PutAll([], kvs)| ==> P(PutAll([], kvs)[i].1)
  {
    if kvs != [] {
      PutAllValues(kvs[..|kvs| - 1], P);
      PutValues(PutAll([], kvs[..|kvs| - 1]), kvs[|kvs| - 1].0, kvs[|kvs| - 1].1, P);
    }
  }
}
