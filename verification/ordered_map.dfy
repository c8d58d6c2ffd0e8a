/** Insertion-ordered maps, as Python's dict (and defaultdict) keeps them:
    a sequence of distinct keys in the order they were first inserted,
    alongside the map from key to value. A tally of a key sequence is the
    ordered map from each key to its number of occurrences. */
module OrderedMap {

  datatype OMap<K, V> = OMap(keys: seq<K>, vals: map<K, V>)

  predicate Distinct<K(==)>(ks: seq<K>) {
    forall i, j :: 0 <= i < j < |ks| ==> ks[i] != ks[j]
  }

  /** The key sequence lists every key of the map exactly once */
  predicate Valid<K(==), V>(m: OMap<K, V>) {
    && Distinct(m.keys)
    && (forall k <- m.keys :: k in m.vals)
    && (forall k <- m.vals.Keys :: k in m.keys)
  }

  function Empty<K(==), V>(): (m: OMap<K, V>)
    ensures Valid(m) && |m.keys| == 0 && |m.vals| == 0
  {
    OMap([], map[])
  }

  /** `d[k] = f(d[k])` on a defaultdict whose default value is `default`:
      a missing key is first inserted at the end of the key order. */
  function Update<K(==), V>(m: OMap<K, V>, k: K, default: V, f: V -> V): (r: OMap<K, V>)
    ensures Valid(m) ==> Valid(r)
    ensures k in r.vals && r.vals[k] == f(if k in m.vals then m.vals[k] else default)
    ensures forall j :: j in m.vals && j != k ==> j in r.vals && r.vals[j] == m.vals[j]
    ensures k in m.vals ==> r.keys == m.keys
    ensures k !in m.vals ==> r.keys == m.keys + [k]
  {
    if k in m.vals then OMap(m.keys, m.vals[k := f(m.vals[k])])
    else OMap(m.keys + [k], m.vals[k := f(default)])
  }

  /** Position of the first occurrence of k in ks */
  function IndexOf<K(==)>(ks: seq<K>, k: K): (i: nat)
    requires k in ks
    ensures i < |ks| && ks[i] == k
    ensures forall j :: 0 <= j < i ==> ks[j] != k
  {
    if ks[0] == k then 0 else 1 + IndexOf(ks[1..], k)
  }

  /** A position holding k with no k before it is the first occurrence */
  lemma IndexOfUnique<K>(ks: seq<K>, k: K, i: nat)
    requires i < |ks| && ks[i] == k
    requires forall j :: 0 <= j < i ==> ks[j] != k
    ensures IndexOf(ks, k) == i
  {
  }

  lemma IndexOfAppend<K>(ks: seq<K>, x: K, k: K)
    requires k in ks
    ensures k in ks + [x] && IndexOf(ks + [x], k) == IndexOf(ks, k)
  {
    IndexOfUnique(ks + [x], k, IndexOf(ks, k));
  }

  /** `keys` lists the distinct elements of ks, in the order of their first
      occurrence in ks */
  predicate FirstSeenOrder<K(==)>(keys: seq<K>, ks: seq<K>) {
    && (forall k <- keys :: k in ks)
    && (forall k <- ks :: k in keys)
    && (forall i, j :: 0 <= i < j < |keys| ==>
          keys[i] in ks && keys[j] in ks && IndexOf(ks, keys[i]) < IndexOf(ks, keys[j]))
  }

  /** Appending an element extends the first-seen order exactly when the
      element is new. */
  lemma {:induction false} FirstSeenOrderAppend<K>(keys: seq<K>, ks: seq<K>, x: K)
    requires FirstSeenOrder(keys, ks)
    ensures x in ks ==> FirstSeenOrder(keys, ks + [x])
    ensures x !in ks ==> FirstSeenOrder(keys + [x], ks + [x])
  {
    forall k | k in ks {
      IndexOfAppend(ks, x, k);
    }
    if x !in ks {
      var keys' := keys + [x];
      forall i, j | 0 <= i < j < |keys'|
        ensures keys'[i] in ks + [x] && keys'[j] in ks + [x]
        ensures IndexOf(ks + [x], keys'[i]) < IndexOf(ks + [x], keys'[j])
      {
        if j == |keys| {
          assert keys'[i] == keys[i] && keys[i] in ks;
          IndexOfUnique(ks + [x], x, |ks|);
        }
      }
    }
  }

  function SumOver<K(==)>(ks: seq<K>, vals: map<K, nat>): nat
    requires forall k :: k in ks ==> k in vals
  {
    if |ks| == 0 then 0 else SumOver(ks[..|ks| - 1], vals) + vals[ks[|ks| - 1]]
  }

  /** Sum of all values of a valid ordered map */
  function SumValues<K(==)>(m: OMap<K, nat>): nat
    requires Valid(m)
  {
    SumOver(m.keys, m.vals)
  }

  lemma {:induction false} SumOverFrame<K>(ks: seq<K>, vals: map<K, nat>, k: K, v: nat)
    requires forall j :: j in ks ==> j in vals
    requires k !in ks
    ensures SumOver(ks, vals[k := v]) == SumOver(ks, vals)
  {
    if |ks| > 0 {
      SumOverFrame(ks[..|ks| - 1], vals, k, v);
    }
  }

  lemma {:induction false} SumOverBump<K>(ks: seq<K>, vals: map<K, nat>, k: K)
    requires forall j :: j in ks ==> j in vals
    requires Distinct(ks) && k in ks
    ensures SumOver(ks, vals[k := vals[k] + 1]) == SumOver(ks, vals) + 1
  {
    var last := ks[|ks| - 1];
    var front := ks[..|ks| - 1];
    if last == k {
      assert k !in front;
      SumOverFrame(front, vals, k, vals[k] + 1);
    } else {
      assert k in front;
      SumOverBump(front, vals, k);
    }
  }

  function Succ(n: nat): nat {
    n + 1
  }

  /** The occurrence count of every element of ks, keyed in first-seen order:
      a left fold of `d[k] += 1` over a defaultdict(int). */
  function Tally<K(==)>(ks: seq<K>): (c: OMap<K, nat>)
    ensures Valid(c)
  {
    if |ks| == 0 then Empty()
    else Update(Tally(ks[..|ks| - 1]), ks[|ks| - 1], 0, Succ)
  }

  lemma TallyAppend<K>(ks: seq<K>, x: K)
    ensures Tally(ks + [x]) == Update(Tally(ks), x, 0, Succ)
  {
    assert (ks + [x])[..|ks|] == ks;
  }

  lemma {:induction false} TallyOrder<K>(ks: seq<K>)
    ensures FirstSeenOrder(Tally(ks).keys, ks)
  {
    if |ks| > 0 {
      var front := ks[..|ks| - 1];
      assert ks == front + [ks[|ks| - 1]];
      TallyOrder(front);
      FirstSeenOrderAppend(Tally(front).keys, front, ks[|ks| - 1]);
    }
  }

  lemma {:induction false} TallyCounts<K>(ks: seq<K>)
    ensures forall k :: k in Tally(ks).vals ==> Tally(ks).vals[k] == multiset(ks)[k] >= 1
  {
    if |ks| > 0 {
      var front := ks[..|ks| - 1];
      var x := ks[|ks| - 1];
      assert ks == front + [x];
      TallyCounts(front);
      var c := Tally(front);
      forall k | k in Tally(ks).vals
        ensures Tally(ks).vals[k] == multiset(ks)[k] >= 1
      {
        assert multiset(ks)[k] == multiset(front)[k] + (if k == x then 1 else 0);
        if k != x {
          assert k in c.vals;
        } else if k !in c.vals {
          TallyOrder(front);
          assert k !in front;
          assert multiset(front)[k] == 0;
        }
      }
    }
  }

  lemma {:induction false} TallySum<K>(ks: seq<K>)
    ensures SumValues(Tally(ks)) == |ks|
  {
    if |ks| > 0 {
      var front := ks[..|ks| - 1];
      var x := ks[|ks| - 1];
      var c := Tally(front);
      TallySum(front);
      if x in c.vals {
        SumOverBump(c.keys, c.vals, x);
      } else {
        SumOverFrame(c.keys, c.vals, x, 1);
        assert (c.keys + [x])[..|c.keys|] == c.keys;
      }
    }
  }

  /** The tally has a key for every distinct element, in first-seen order,
      holding its number of occurrences; the counts add up to |ks|. */
  lemma TallySpec<K>(ks: seq<K>)
    ensures FirstSeenOrder(Tally(ks).keys, ks)
    ensures forall k :: k in Tally(ks).vals ==> Tally(ks).vals[k] == multiset(ks)[k] >= 1
    ensures SumValues(Tally(ks)) == |ks|
  {
    TallyOrder(ks);
    TallyCounts(ks);
    TallySum(ks);
  }
}
