/** `sorted(xs, key=f)`: the keys are computed once per element, then the
    pairs are put in ascending key order by a stable insertion sort. */
module Sorting {

  datatype Keyed<T> = Keyed(key: int, item: T)

  ghost predicate SortedByKey<T>(s: seq<Keyed<T>>) {
    forall i, j :: 0 <= i < j < |s| ==> s[i].key <= s[j].key
  }

  /** Every key of `s` is at least `low`. */
  ghost predicate KeysFrom<T>(low: int, s: seq<Keyed<T>>) {
    forall k :: 0 <= k < |s| ==> low <= s[k].key
  }

  /** A sorted sequence stays sorted under a head no larger than its keys. */
  lemma ConsSorted<T>(h: Keyed<T>, s: seq<Keyed<T>>)
    requires SortedByKey(s) && KeysFrom(h.key, s)
    ensures SortedByKey([h] + s)
  {
    var r := [h] + s;
    forall i, j | 0 <= i < j < |r| ensures r[i].key <= r[j].key {
      if i > 0 {
        assert r[i] == s[i - 1] && r[j] == s[j - 1];
      } else {
        assert r[j] == s[j - 1];
      }
    }
  }

  /** Places `x` before the first entry of `s` whose key is not smaller:
      `x` goes ahead of the entries with the same key, which came later in
      the input. */
  function Insert<T>(x: Keyed<T>, s: seq<Keyed<T>>): (r: seq<Keyed<T>>)
    requires SortedByKey(s)
    ensures SortedByKey(r)
    ensures multiset(r) == multiset(s) + multiset{x}
  {
    if s == [] || x.key <= s[0].key then
      ConsSorted(x, s);
      [x] + s
    else
      assert s == [s[0]] + s[1..];
      var rest := Insert(x, s[1..]);
      LowerBoundKept(s[0].key, x, s[1..], rest);
      ConsSorted(s[0], rest);
      [s[0]] + rest
  }

  /** A key no larger than `x`'s and than every key of `s` is no larger than
      any key of a permutation of `s` with `x` added. */
  lemma LowerBoundKept<T>(low: int, x: Keyed<T>, s: seq<Keyed<T>>, r: seq<Keyed<T>>)
    requires low <= x.key && KeysFrom(low, s)
    requires multiset(r) == multiset(s) + multiset{x}
    ensures KeysFrom(low, r)
  {
    forall k | 0 <= k < |r| ensures low <= r[k].key {
      assert r[k] in multiset(r);
      if r[k] != x {
        assert r[k] in multiset(s);
        var j :| 0 <= j < |s| && s[j] == r[k];
      }
    }
  }

  /** Insertion sort from the back: the head is inserted into the sorted tail. */
  function SortByKey<T>(s: seq<Keyed<T>>): (r: seq<Keyed<T>>)
    ensures SortedByKey(r)
    ensures multiset(r) == multiset(s)
  {
    if s == [] then []
    else
      assert s == [s[0]] + s[1..];
      Insert(s[0], SortByKey(s[1..]))
  }

  function Items<T>(s: seq<Keyed<T>>): (r: seq<T>)
    ensures |r| == |s| && forall i :: 0 <= i < |s| ==> r[i] == s[i].item
  {
    seq(|s|, i requires 0 <= i < |s| => s[i].item)
  }

  lemma ItemsCons<T>(h: Keyed<T>, t: seq<Keyed<T>>)
    ensures multiset(Items([h] + t)) == multiset{h.item} + multiset(Items(t))
  {
    assert Items([h] + t) == [h.item] + Items(t);
  }

  lemma ItemsAppend<T>(a: seq<Keyed<T>>, b: seq<Keyed<T>>)
    ensures Items(a + b) == Items(a) + Items(b)
  {
  }

  /** Inserting a pair adds its item to the items. */
  lemma {:induction false} InsertItems<T>(x: Keyed<T>, s: seq<Keyed<T>>)
    requires SortedByKey(s)
    ensures multiset(Items(Insert(x, s))) == multiset(Items(s)) + multiset{x.item}
    decreases |s|
  {
    if s == [] || x.key <= s[0].key {
      ItemsCons(x, s);
    } else {
      var rest := Insert(x, s[1..]);
      InsertItems(x, s[1..]);
      ItemsCons(s[0], rest);
      ItemsCons(s[0], s[1..]);
      assert [s[0]] + s[1..] == s;
    }
  }

  /** Sorting the pairs reorders their items. */
  lemma {:induction false} SortItems<T>(s: seq<Keyed<T>>)
    ensures multiset(Items(SortByKey(s))) == multiset(Items(s))
    decreases |s|
  {
    if s != [] {
      SortItems(s[1..]);
      InsertItems(s[0], SortByKey(s[1..]));
      ItemsCons(s[0], s[1..]);
      assert [s[0]] + s[1..] == s;
    }
  }

  /** The entries of `s` whose key is `k`, in their order in `s`. */
  function KeyFilter<T>(s: seq<Keyed<T>>, k: int): (r: seq<Keyed<T>>)
    ensures forall i :: 0 <= i < |r| ==> r[i].key == k && r[i] in s
  {
    if s == [] then []
    else (if s[0].key == k then [s[0]] else []) + KeyFilter(s[1..], k)
  }

  /** `x` lands ahead of the entries of `s` that share its key and after
      those with other keys, so the entries of any one key keep their order. */
  lemma {:induction false} InsertStable<T>(x: Keyed<T>, s: seq<Keyed<T>>, k: int)
    requires SortedByKey(s)
    ensures KeyFilter(Insert(x, s), k) == (if x.key == k then [x] else []) + KeyFilter(s, k)
    decreases |s|
  {
    if s == [] || x.key <= s[0].key {
      assert Insert(x, s) == [x] + s;
      assert ([x] + s)[1..] == s;
    } else {
      var rest := Insert(x, s[1..]);
      assert Insert(x, s) == [s[0]] + rest;
      InsertStable(x, s[1..], k);
      assert ([s[0]] + rest)[1..] == rest;
      var tail := KeyFilter(s[1..], k);
      assert KeyFilter(s, k) == (if s[0].key == k then [s[0]] else []) + tail;
      assert KeyFilter([s[0]] + rest, k) == (if s[0].key == k then [s[0]] else []) + KeyFilter(rest, k);
      if x.key == k {
        assert s[0].key != k;
      } else if s[0].key == k {
        assert KeyFilter(rest, k) == tail;
      }
    }
  }

  /** The sort is stable: the entries of each key come out in input order. */
  lemma {:induction false} SortStable<T>(s: seq<Keyed<T>>, k: int)
    ensures KeyFilter(SortByKey(s), k) == KeyFilter(s, k)
    decreases |s|
  {
    if s != [] {
      SortStable(s[1..], k);
      InsertStable(s[0], SortByKey(s[1..]), k);
    }
  }
}
