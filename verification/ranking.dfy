/** Ranking as Python's `sorted(xs, key=..., reverse=True)` does it: a stable
    sort in descending order of a numeric key, where elements with equal keys
    keep their input order; and the top-K cut `sorted(...)[:k]`. */
module Ranking {
  import Text

  predicate SortedDesc<T>(xs: seq<T>, key: T -> real) {
    forall i, j :: 0 <= i < j < |xs| ==> key(xs[i]) >= key(xs[j])
  }

  /** The elements of xs whose key is k, in their order in xs */
  function WithKey<T>(xs: seq<T>, key: T -> real, k: real): seq<T> {
    if |xs| == 0 then []
    else (if key(xs[0]) == k then [xs[0]] else []) + WithKey(xs[1..], key, k)
  }

  /** WithKey selects: what it lists comes from xs and carries key k */
  lemma {:induction false} WithKeyMember<T>(xs: seq<T>, key: T -> real, k: real, e: T)
    requires e in WithKey(xs, key, k)
    ensures e in xs && key(e) == k
  {
    if |xs| > 0 {
      var a: seq<T> := if key(xs[0]) == k then [xs[0]] else [];
      if e !in a {
        WithKeyMember(xs[1..], key, k, e);
      }
    }
  }

  /** Places x in front of the first element whose key is not above key(x),
      so that x precedes every element of ys with the same key. */
  function Insert<T>(x: T, ys: seq<T>, key: T -> real): (r: seq<T>)
    ensures |r| == |ys| + 1
    ensures multiset(r) == multiset(ys) + multiset{x}
    ensures SortedDesc(ys, key) ==> SortedDesc(r, key)
  {
    if |ys| == 0 || key(x) >= key(ys[0]) then [x] + ys
    else
      var rest := Insert(x, ys[1..], key);
      assert ys == [ys[0]] + ys[1..];
      var r := [ys[0]] + rest;
      assert SortedDesc(ys, key) ==> SortedDesc(r, key) by {
        if SortedDesc(ys, key) {
          InsertStep(x, ys, rest, key);
        }
      }
      r
  }

  /** The element Insert steps over stays in front of the rest */
  lemma InsertStep<T>(x: T, ys: seq<T>, rest: seq<T>, key: T -> real)
    requires |ys| > 0 && key(x) < key(ys[0])
    requires SortedDesc(ys, key) && SortedDesc(rest, key)
    requires multiset(rest) == multiset(ys[1..]) + multiset{x}
    ensures SortedDesc([ys[0]] + rest, key)
  {
    forall e | e in rest
      ensures key(ys[0]) >= key(e)
    {
      assert e in multiset(rest);
      if e != x {
        assert e in ys[1..];
        var i :| 0 <= i < |ys[1..]| && ys[1..][i] == e;
        assert ys[i + 1] == e;
      }
    }
    var r := [ys[0]] + rest;
    forall i, j | 0 <= i < j < |r|
      ensures key(r[i]) >= key(r[j])
    {
      if i == 0 {
        assert r[j] == rest[j - 1] && rest[j - 1] in rest;
      } else {
        assert r[i] == rest[i - 1] && r[j] == rest[j - 1];
      }
    }
  }

  /** Stable descending insertion sort */
  function SortDesc<T>(xs: seq<T>, key: T -> real): (r: seq<T>)
    ensures |r| == |xs|
    ensures multiset(r) == multiset(xs)
    ensures SortedDesc(r, key)
  {
    if |xs| == 0 then []
    else
      assert xs == [xs[0]] + xs[1..];
      Insert(xs[0], SortDesc(xs[1..], key), key)
  }

  lemma {:induction false} InsertWithKey<T>(x: T, ys: seq<T>, key: T -> real, k: real)
    ensures WithKey(Insert(x, ys, key), key, k)
         == (if key(x) == k then [x] else []) + WithKey(ys, key, k)
  {
    if |ys| == 0 || key(x) >= key(ys[0]) {
      assert ([x] + ys)[1..] == ys;
    } else {
      InsertWithKey(x, ys[1..], key, k);
      WithKeyPassed(x, ys[0], ys[1..], Insert(x, ys[1..], key), key, k);
      assert ys == [ys[0]] + ys[1..];
    }
  }

  /** Insert stepping over y, whose key is above that of x, keeps y in front
      of x in the per-key arrangement. */
  lemma WithKeyPassed<T>(x: T, y: T, tail: seq<T>, rest: seq<T>, key: T -> real, k: real)
    requires key(x) < key(y)
    requires WithKey(rest, key, k) == (if key(x) == k then [x] else []) + WithKey(tail, key, k)
    ensures WithKey([y] + rest, key, k) == (if key(x) == k then [x] else []) + WithKey([y] + tail, key, k)
  {
    assert ([y] + rest)[1..] == rest;
    assert ([y] + tail)[1..] == tail;
    var w := WithKey(tail, key, k);
    if key(y) == k {
      assert WithKey([y] + rest, key, k) == [y] + w;
      assert WithKey([y] + tail, key, k) == [y] + w;
    } else {
      assert WithKey([y] + rest, key, k) == WithKey(rest, key, k);
      assert WithKey([y] + tail, key, k) == w;
    }
  }

  /** Stability: for every key value, the elements carrying it appear in the
      sorted sequence in the same order as in the input. */
  lemma {:induction false} SortStable<T>(xs: seq<T>, key: T -> real, k: real)
    ensures WithKey(SortDesc(xs, key), key, k) == WithKey(xs, key, k)
  {
    if |xs| > 0 {
      SortStable(xs[1..], key, k);
      InsertWithKey(xs[0], SortDesc(xs[1..], key), key, k);
    }
  }

  /** Sorting a sequence that is already in descending order changes nothing */
  lemma {:induction false} SortIdempotent<T>(xs: seq<T>, key: T -> real)
    requires SortedDesc(xs, key)
    ensures SortDesc(xs, key) == xs
  {
    if |xs| > 0 {
      SortIdempotent(xs[1..], key);
      assert [xs[0]] + xs[1..] == xs;
    }
  }

  lemma WithKeyHead<T>(xs: seq<T>, key: T -> real)
    requires |xs| > 0
    ensures WithKey(xs, key, key(xs[0])) == [xs[0]] + WithKey(xs[1..], key, key(xs[0]))
  {
  }

  /** The first element of ys occurs in any zs that lists the elements of
      its key as ys does. */
  lemma WithKeyAgreeHead<T>(ys: seq<T>, zs: seq<T>, key: T -> real)
    requires |ys| > 0
    requires WithKey(ys, key, key(ys[0])) == WithKey(zs, key, key(ys[0]))
    ensures ys[0] in zs
  {
    WithKeyHead(ys, key);
    assert ys[0] in WithKey(zs, key, key(ys[0]));
    WithKeyMember(zs, key, key(ys[0]), ys[0]);
  }

  /** Two descending sequences, each holding the other's first element and
      listing the elements of that key in the same order, start with the
      same element. */
  lemma SortUniqueHead<T>(ys: seq<T>, zs: seq<T>, key: T -> real)
    requires SortedDesc(ys, key) && SortedDesc(zs, key)
    requires |ys| > 0 && |zs| > 0 && ys[0] in zs && zs[0] in ys
    requires WithKey(ys, key, key(ys[0])) == WithKey(zs, key, key(ys[0]))
    ensures ys[0] == zs[0]
  {
    var i :| 0 <= i < |zs| && zs[i] == ys[0];
    var j :| 0 <= j < |ys| && ys[j] == zs[0];
    assert key(zs[0]) >= key(zs[i]);
    assert key(ys[0]) >= key(ys[j]);
    WithKeyHead(ys, key);
    WithKeyHead(zs, key);
  }

  /** Equal heads removed, the per-key arrangements still agree */
  lemma WithKeyTails<T>(ys: seq<T>, zs: seq<T>, key: T -> real, k: real)
    requires |ys| > 0 && |zs| > 0 && ys[0] == zs[0]
    requires WithKey(ys, key, k) == WithKey(zs, key, k)
    ensures WithKey(ys[1..], key, k) == WithKey(zs[1..], key, k)
  {
    var a := if key(ys[0]) == k then [ys[0]] else [];
    var wy := WithKey(ys[1..], key, k);
    var wz := WithKey(zs[1..], key, k);
    assert (a + wy)[|a|..] == wy;
    assert (a + wz)[|a|..] == wz;
  }

  /** A descending sequence and a per-key arrangement determine each other:
      two descending sequences that list the elements of every key in the
      same order are equal. */
  lemma {:induction false} SortUnique<T>(ys: seq<T>, zs: seq<T>, key: T -> real)
    requires SortedDesc(ys, key) && SortedDesc(zs, key)
    requires forall k :: WithKey(ys, key, k) == WithKey(zs, key, k)
    ensures ys == zs
    decreases |ys|
  {
    if |ys| > 0 {
      WithKeyAgreeHead(ys, zs, key);
    }
    if |zs| > 0 {
      WithKeyAgreeHead(zs, ys, key);
    }
    if |ys| > 0 {
      SortUniqueHead(ys, zs, key);
      forall k ensures WithKey(ys[1..], key, k) == WithKey(zs[1..], key, k) {
        WithKeyTails(ys, zs, key, k);
      }
      SortedTail(ys, key);
      SortedTail(zs, key);
      SortUnique(ys[1..], zs[1..], key);
      assert ys == [ys[0]] + ys[1..];
      assert zs == [zs[0]] + zs[1..];
    }
  }

  lemma SortedTail<T>(xs: seq<T>, key: T -> real)
    requires SortedDesc(xs, key) && |xs| > 0
    ensures SortedDesc(xs[1..], key)
  {
    var t := xs[1..];
    forall i, j | 0 <= i < j < |t| ensures key(t[i]) >= key(t[j]) {
      assert t[i] == xs[i + 1] && t[j] == xs[j + 1];
    }
  }

  /** In a descending sequence every element of a prefix has a key at least
      that of every element after it. */
  lemma SortedSplit<T>(s: seq<T>, n: nat, key: T -> real)
    requires SortedDesc(s, key) && n <= |s|
    ensures forall x, e :: x in s[..n] && e in s[n..] ==> key(x) >= key(e)
  {
    forall x, e | x in s[..n] && e in s[n..] ensures key(x) >= key(e) {
      var i :| 0 <= i < n && s[..n][i] == x;
      var j :| 0 <= j < |s| - n && s[n..][j] == e;
      assert s[i] == x && s[n + j] == e;
    }
  }

  /** SortDesc is the one arrangement of xs that is descending and keeps the
      input order among equal keys, which is what Python guarantees of
      `sorted(xs, key=key, reverse=True)`. */
  lemma SortCharacterised<T>(xs: seq<T>, ys: seq<T>, key: T -> real)
    requires SortedDesc(ys, key)
    requires forall k :: WithKey(ys, key, k) == WithKey(xs, key, k)
    ensures ys == SortDesc(xs, key)
  {
    var s := SortDesc(xs, key);
    forall k ensures WithKey(ys, key, k) == WithKey(s, key, k) {
      SortStable(xs, key, k);
    }
    SortUnique(ys, s, key);
  }

  /** `sorted(xs, key=key, reverse=True)[:k]` */
  function TopK<T>(xs: seq<T>, key: T -> real, k: nat): (r: seq<T>)
    ensures |r| <= k
    ensures |r| == if k < |xs| then k else |xs|
    ensures SortedDesc(r, key)
    ensures multiset(r) <= multiset(xs)
    ensures forall x, e :: x in r && e in multiset(xs) - multiset(r) ==> key(x) >= key(e)
  {
    var s := SortDesc(xs, key);
    TakeSorted(s, k, key);
    Text.Take(s, k)
  }

  /** The top K are elements of the input */
  lemma TopKMembers<T>(xs: seq<T>, key: T -> real, k: nat)
    ensures forall x <- TopK(xs, key, k) :: x in xs
  {
    var r := TopK(xs, key, k);
    forall x <- r ensures x in xs {
      assert x in multiset(r);
    }
  }

  /** A prefix of a descending sequence is descending, and none of the
      elements left out has a key above any element kept. */
  lemma TakeSorted<T>(s: seq<T>, k: nat, key: T -> real)
    requires SortedDesc(s, key)
    ensures SortedDesc(Text.Take(s, k), key)
    ensures multiset(Text.Take(s, k)) <= multiset(s)
    ensures forall x, e :: x in Text.Take(s, k) && e in multiset(s) - multiset(Text.Take(s, k)) ==> key(x) >= key(e)
  {
    var r := Text.Take(s, k);
    var n := |r|;
    assert r == s[..n];
    SortedSplit(s, n, key);
    assert s == s[..n] + s[n..];
    assert multiset(s) - multiset(r) == multiset(s[n..]);
  }
}
