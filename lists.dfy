/**
 * Sequence helpers shared by the components: mapping, the multiset facts about
 * rearrangements, a stable sort by key (the model of `Array.prototype.sort` and of SQL
 * `ORDER BY`), and the `map`/`filter` updates the components apply to their local lists.
 */
module Lists {
  import opened Wrappers

  /** Lexicographic order on integer sequences; a proper prefix sorts first. */
  predicate LexLe(a: seq<int>, b: seq<int>)
    decreases |a|
  {
    if a == [] then true
    else if b == [] then false
    else if a[0] != b[0] then a[0] < b[0]
    else LexLe(a[1..], b[1..])
  }

  lemma {:induction false} LexTotal(a: seq<int>, b: seq<int>)
    ensures LexLe(a, b) || LexLe(b, a)
    decreases |a|
  {
    if a != [] && b != [] && a[0] == b[0] {
      LexTotal(a[1..], b[1..]);
    }
  }

  lemma {:induction false} LexTrans(a: seq<int>, b: seq<int>, c: seq<int>)
    requires LexLe(a, b) && LexLe(b, c)
    ensures LexLe(a, c)
    decreases |a|
  {
    if a != [] && b != [] && c != [] && a[0] == b[0] && b[0] == c[0] {
      LexTrans(a[1..], b[1..], c[1..]);
    }
  }

  lemma {:induction false} LexReflexive(a: seq<int>)
    ensures LexLe(a, a)
    decreases |a|
  {
    if a != [] {
      LexReflexive(a[1..]);
    }
  }

  /** Extending two keys with the same first element keeps their order. */
  lemma LexCons(x: int, a: seq<int>, b: seq<int>)
    ensures LexLe([x] + a, [x] + b) <==> LexLe(a, b)
  {
    assert ([x] + a)[1..] == a;
    assert ([x] + b)[1..] == b;
  }

  /** One-element keys compare as their elements. */
  lemma LexSingle(a: int, b: int)
    ensures LexLe([a], [b]) <==> a <= b
  {
    assert [a][1..] == [] && [b][1..] == [];
  }

  /** The character codes of a string: the sort key of JavaScript's string comparison. */
  function Codes(s: string): (r: seq<int>)
    ensures |r| == |s| && forall i :: 0 <= i < |s| ==> r[i] == s[i] as int
  {
    seq(|s|, i requires 0 <= i < |s| => s[i] as int)
  }

  /** Lexicographic comparison of two strings, as `localeCompare` is modelled: -1, 0 or 1. */
  function CompareStrings(a: string, b: string): (r: int)
    ensures r == 0 <==> a == b
    ensures r <= 0 <==> LexLe(Codes(a), Codes(b))
    ensures -1 <= r <= 1
    decreases |a|
  {
    if a == [] && b == [] then 0
    else if a == [] then -1
    else if b == [] then 1
    else if a[0] < b[0] then -1
    else if a[0] > b[0] then 1
    else
      var r := CompareStrings(a[1..], b[1..]);
      assert Codes(a)[1..] == Codes(a[1..]) && Codes(b)[1..] == Codes(b[1..]);
      assert a == [a[0]] + a[1..] && b == [b[0]] + b[1..];
      r
  }

  function MapSeq<T, U>(f: T -> U, s: seq<T>): (r: seq<U>)
    ensures |r| == |s| && forall i :: 0 <= i < |s| ==> r[i] == f(s[i])
  {
    if s == [] then [] else [f(s[0])] + MapSeq(f, s[1..])
  }

  lemma {:induction false} MapSeqAppend<T, U>(f: T -> U, a: seq<T>, b: seq<T>)
    ensures MapSeq(f, a + b) == MapSeq(f, a) + MapSeq(f, b)
  {
  }

  /** A sequence is its part before `k`, its element at `k` and its part after. */
  lemma SplitAt<T>(t: seq<T>, k: nat)
    requires k < |t|
    ensures t == t[..k] + ([t[k]] + t[k + 1..])
  {
    assert t == t[..k] + t[k..];
    assert t[k..] == [t[k]] + t[k + 1..];
  }

  /** Taking one element out of a sequence takes its image out of the mapped sequence. */
  lemma MapSeqRemove<T, U>(f: T -> U, t: seq<T>, k: nat)
    requires k < |t|
    ensures multiset(MapSeq(f, t)) == multiset(MapSeq(f, t[..k] + t[k + 1..])) + multiset{f(t[k])}
  {
    var a, b := t[..k], t[k + 1..];
    var ma, mb, mx := MapSeq(f, a), MapSeq(f, b), [f(t[k])];
    SplitAt(t, k);
    MapSeqAppend(f, a, [t[k]] + b);
    MapSeqAppend(f, [t[k]], b);
    MapSeqAppend(f, a, b);
    assert MapSeq(f, [t[k]]) == mx;
    assert MapSeq(f, t) == ma + (mx + mb);
    assert MapSeq(f, a + b) == ma + mb;
    assert multiset(ma + (mx + mb)) == multiset(ma) + multiset(mx) + multiset(mb);
  }

  /** Rearranging the inputs rearranges the images: `map` preserves "is a permutation of". */
  lemma {:induction false} MapSeqPermutation<T, U>(f: T -> U, s: seq<T>, t: seq<T>)
    requires multiset(s) == multiset(t)
    ensures multiset(MapSeq(f, s)) == multiset(MapSeq(f, t))
    decreases |s|
  {
    if s == [] {
      assert |t| == |multiset(t)| == 0;
    } else {
      var x := s[0];
      assert x in multiset(t);
      var k :| 0 <= k < |t| && t[k] == x;
      var t' := t[..k] + t[k + 1..];
      assert t == t[..k] + [x] + t[k + 1..];
      assert multiset(t') == multiset(t) - multiset{x};
      assert s == [x] + s[1..];
      assert multiset(s[1..]) == multiset(s) - multiset{x};
      MapSeqPermutation(f, s[1..], t');
      MapSeqRemove(f, t, k);
      MapSeqRemove(f, s, 0);
      assert s[..0] + s[1..] == s[1..];
    }
  }

  /** `s` is in non-decreasing order of `key`. */
  ghost predicate SortedBy<T>(s: seq<T>, key: T -> seq<int>) {
    forall i, j :: 0 <= i < j < |s| ==> LexLe(key(s[i]), key(s[j]))
  }

  /** Puts `x` into sorted `s` after every element whose key is not greater than its own. */
  function Insert<T>(x: T, s: seq<T>, key: T -> seq<int>): (r: seq<T>)
    ensures multiset(r) == multiset(s) + multiset{x}
    ensures |r| == |s| + 1
  {
    if s == [] then [x]
    else if LexLe(key(s[0]), key(x)) then
      assert s == [s[0]] + s[1..];
      [s[0]] + Insert(x, s[1..], key)
    else [x] + s
  }

  lemma {:induction false} InsertSorted<T>(x: T, s: seq<T>, key: T -> seq<int>)
    requires SortedBy(s, key)
    ensures SortedBy(Insert(x, s, key), key)
    ensures forall y :: y in Insert(x, s, key) ==> y == x || y in s
  {
    if s != [] {
      SortedTail(s, key);
      if LexLe(key(s[0]), key(x)) {
        var rest := Insert(x, s[1..], key);
        InsertSorted(x, s[1..], key);
        assert Insert(x, s, key) == [s[0]] + rest;
        SortedCons(s[0], rest, key);
      } else {
        LexTotal(key(s[0]), key(x));
        forall y | y in s ensures LexLe(key(x), key(y)) {
          if y != s[0] {
            assert y in s[1..] by {
              assert s == [s[0]] + s[1..];
            }
            LexTrans(key(x), key(s[0]), key(y));
          }
        }
        SortedCons(x, s, key);
      }
    }
  }

  /** A stable insertion sort by `key`. */
  function SortBy<T>(s: seq<T>, key: T -> seq<int>): (r: seq<T>)
    ensures multiset(r) == multiset(s) && |r| == |s|
  {
    if s == [] then []
    else
      assert s == s[..|s| - 1] + [s[|s| - 1]];
      Insert(s[|s| - 1], SortBy(s[..|s| - 1], key), key)
  }

  /** The result of `SortBy` is in key order and a permutation of the input. */
  lemma {:induction false} SortBySorted<T>(s: seq<T>, key: T -> seq<int>)
    ensures SortedBy(SortBy(s, key), key)
    ensures multiset(SortBy(s, key)) == multiset(s)
  {
    if s != [] {
      SortBySorted(s[..|s| - 1], key);
      InsertSorted(s[|s| - 1], SortBy(s[..|s| - 1], key), key);
    }
  }

  /** `list.map(x => idOf(x) === id ? updated : x)`. */
  function ReplaceWhere<T>(s: seq<T>, idOf: T -> int, id: int, updated: T): (r: seq<T>)
    ensures |r| == |s|
    ensures forall k :: 0 <= k < |s| ==> r[k] == (if idOf(s[k]) == id then updated else s[k])
  {
    if s == [] then []
    else [if idOf(s[0]) == id then updated else s[0]] + ReplaceWhere(s[1..], idOf, id, updated)
  }

  /** `list.filter(x => idOf(x) !== id)`. */
  function RemoveWhere<T>(s: seq<T>, idOf: T -> int, id: int): (r: seq<T>)
    ensures |r| <= |s|
    ensures forall k :: 0 <= k < |r| ==> r[k] in s && idOf(r[k]) != id
  {
    if s == [] then []
    else
      assert s == [s[0]] + s[1..];
      (if idOf(s[0]) == id then [] else [s[0]]) + RemoveWhere(s[1..], idOf, id)
  }

  /** An element with another id is kept as often as it occurs. */
  lemma {:induction false} RemoveWhereCount<T>(s: seq<T>, idOf: T -> int, id: int, x: T)
    requires idOf(x) != id
    ensures multiset(RemoveWhere(s, idOf, id))[x] == multiset(s)[x]
  {
    if s != [] {
      assert s == [s[0]] + s[1..];
      RemoveWhereCount(s[1..], idOf, id, x);
    }
  }

  /** Every element with another id is kept as often as it occurs. */
  lemma RemoveWhereKeeps<T>(s: seq<T>, idOf: T -> int, id: int)
    ensures forall k :: 0 <= k < |s| && idOf(s[k]) != id ==> multiset(RemoveWhere(s, idOf, id))[s[k]] == multiset(s)[s[k]]
  {
    forall k | 0 <= k < |s| && idOf(s[k]) != id
      ensures multiset(RemoveWhere(s, idOf, id))[s[k]] == multiset(s)[s[k]]
    {
      RemoveWhereCount(s, idOf, id, s[k]);
    }
  }

  /** `list.filter(p)`: the elements that pass `p`, each as often as in `s`. */
  function Filter<T>(s: seq<T>, p: T -> bool): (r: seq<T>)
    ensures |r| <= |s|
    ensures forall k :: 0 <= k < |r| ==> r[k] in s && p(r[k])
  {
    if s == [] then []
    else
      assert s == [s[0]] + s[1..];
      (if p(s[0]) then [s[0]] else []) + Filter(s[1..], p)
  }

  /** An element that passes is kept as often as it occurs. */
  lemma {:induction false} FilterCount<T>(s: seq<T>, p: T -> bool, x: T)
    requires p(x)
    ensures multiset(Filter(s, p))[x] == multiset(s)[x]
  {
    if s != [] {
      assert s == [s[0]] + s[1..];
      FilterCount(s[1..], p, x);
    }
  }

  /** Every element that passes is kept. */
  lemma FilterKeeps<T>(s: seq<T>, p: T -> bool)
    ensures forall k :: 0 <= k < |s| && p(s[k]) ==> s[k] in Filter(s, p)
  {
    forall k | 0 <= k < |s| && p(s[k]) ensures s[k] in Filter(s, p) {
      FilterCount(s, p, s[k]);
    }
  }

  /** Filtering keeps relative order: it distributes over concatenation. */
  lemma {:induction false} FilterAppend<T>(a: seq<T>, b: seq<T>, p: T -> bool)
    ensures Filter(a + b, p) == Filter(a, p) + Filter(b, p)
  {
    if a == [] {
      assert a + b == b;
    } else {
      assert (a + b)[0] == a[0] && (a + b)[1..] == a[1..] + b;
      FilterAppend(a[1..], b, p);
      assert Filter(a + b, p) == (if p(a[0]) then [a[0]] else []) + Filter(a[1..] + b, p);
    }
  }

  /** `list.find(p)`: the first element that passes `p`, or `undefined`. */
  function FindFirst<T>(s: seq<T>, p: T -> bool): (r: Option<T>)
    ensures r.Some? ==> r.value in s && p(r.value)
    ensures r.None? <==> forall k :: 0 <= k < |s| ==> !p(s[k])
    ensures r.Some? ==> exists k :: 0 <= k < |s| && s[k] == r.value && forall j :: 0 <= j < k ==> !p(s[j])
  {
    if s == [] then None
    else if p(s[0]) then Some(s[0])
    else
      var r := FindFirst(s[1..], p);
      assert forall k :: 1 <= k < |s| ==> s[k] == s[1..][k - 1];
      r
  }

  /** Replacing with a row that keeps the id is idempotent. */
  lemma {:induction false} ReplaceWhereIdempotent<T>(s: seq<T>, idOf: T -> int, id: int, updated: T)
    requires idOf(updated) == id
    ensures ReplaceWhere(ReplaceWhere(s, idOf, id, updated), idOf, id, updated) == ReplaceWhere(s, idOf, id, updated)
  {
    if s != [] {
      ReplaceWhereIdempotent(s[1..], idOf, id, updated);
    }
  }

  /** Removing an id after replacing its rows is removing it from the original list. */
  lemma {:induction false} RemoveAfterReplace<T>(s: seq<T>, idOf: T -> int, id: int, updated: T)
    requires idOf(updated) == id
    ensures RemoveWhere(ReplaceWhere(s, idOf, id, updated), idOf, id) == RemoveWhere(s, idOf, id)
  {
    if s != [] {
      RemoveAfterReplace(s[1..], idOf, id, updated);
      var r := ReplaceWhere(s, idOf, id, updated);
      assert r[1..] == ReplaceWhere(s[1..], idOf, id, updated);
    }
  }

  /** `keys.reduce((acc, k) => { acc[k] = f(k); return acc; }, {})`. */
  function MapOver<K, V>(keys: seq<K>, f: K -> V): map<K, V> {
    map k | k in keys :: f(k)
  }

  /** The keys of `MapOver` are the listed keys, each bound to its image. */
  lemma MapOverAt<K, V>(keys: seq<K>, f: K -> V, k: K)
    ensures k in MapOver(keys, f) <==> k in keys
    ensures k in keys ==> MapOver(keys, f)[k] == f(k)
  {
  }

  /** One more assignment of the `reduce` extends the map by the next key. */
  lemma MapOverSnoc<K, V>(keys: seq<K>, j: nat, f: K -> V)
    requires j < |keys|
    ensures MapOver(keys[..j + 1], f) == MapOver(keys[..j], f)[keys[j] := f(keys[j])]
  {
    assert keys[..j + 1] == keys[..j] + [keys[j]];
  }

  /** `find` returns the element at `k` when it is the first to pass. */
  lemma {:induction false} FindFirstAt<T>(s: seq<T>, p: T -> bool, k: nat)
    requires k < |s| && p(s[k])
    requires forall j :: 0 <= j < k ==> !p(s[j])
    ensures FindFirst(s, p) == Some(s[k])
  {
    if k > 0 {
      FindFirstAt(s[1..], p, k - 1);
    }
  }

  function HasKey<T, K(==)>(keyOf: T -> K, k: K): T -> bool {
    (x: T) => keyOf(x) == k
  }

  /**
   * The buckets of a `Map` grouping: one per key of `base` and per key of an element,
   * each holding the elements with that key in list order.
   */
  function Grouped<T(==), K(==)>(base: set<K>, s: seq<T>, keyOf: T -> K): map<K, seq<T>> {
    map k | k in base + (set x | x in s :: keyOf(x)) :: Filter(s, HasKey(keyOf, k))
  }

  /** Filtering one more element appends it exactly when it passes. */
  lemma FilterSnoc<T>(s: seq<T>, x: T, p: T -> bool)
    ensures Filter(s + [x], p) == Filter(s, p) + (if p(x) then [x] else [])
  {
    FilterAppend(s, [x], p);
    assert Filter([x], p) == (if p(x) then [x] else []) + Filter([x][1..], p);
  }

  /** Nothing passes: the filter is empty. */
  lemma FilterNone<T>(s: seq<T>, p: T -> bool)
    requires forall k :: 0 <= k < |s| ==> !p(s[k])
    ensures Filter(s, p) == []
  {
  }

  /** One more element adds its key to the buckets. */
  lemma GroupedKeysSnoc<T, K>(base: set<K>, s: seq<T>, x: T, keyOf: T -> K)
    ensures Grouped(base, s + [x], keyOf).Keys == Grouped(base, s, keyOf).Keys + {keyOf(x)}
  {
    assert (set y | y in s + [x] :: keyOf(y)) == (set y | y in s :: keyOf(y)) + {keyOf(x)} by {
      assert forall y :: y in s + [x] <==> y in s || y == x;
    }
  }

  /** A key without a bucket is the key of no element. */
  lemma GroupedAbsent<T, K>(base: set<K>, s: seq<T>, keyOf: T -> K, k: K)
    requires k !in Grouped(base, s, keyOf)
    ensures Filter(s, HasKey(keyOf, k)) == []
  {
    forall j | 0 <= j < |s| ensures !HasKey(keyOf, k)(s[j]) {
      assert keyOf(s[j]) in (set y | y in s :: keyOf(y));
    }
    FilterNone(s, HasKey(keyOf, k));
  }

  /** One more element: create its bucket when missing, then push the element into it. */
  lemma GroupedSnoc<T, K>(base: set<K>, s: seq<T>, x: T, keyOf: T -> K)
    ensures var before := Grouped(base, s, keyOf);
      var created := if keyOf(x) in before then before else before[keyOf(x) := []];
      Grouped(base, s + [x], keyOf) == created[keyOf(x) := created[keyOf(x)] + [x]]
  {
    var before := Grouped(base, s, keyOf);
    var key := keyOf(x);
    var created := if key in before then before else before[key := []];
    var expected := created[key := created[key] + [x]];
    var after := Grouped(base, s + [x], keyOf);
    GroupedKeysSnoc(base, s, x, keyOf);
    assert after.Keys == expected.Keys;
    forall k | k in after ensures after[k] == expected[k] {
      FilterSnoc(s, x, HasKey(keyOf, k));
      if k == key && key !in before {
        GroupedAbsent(base, s, keyOf, k);
      }
    }
  }

  /** `GroupedSnoc` for the prefixes of one list. */
  lemma GroupedPrefix<T, K>(base: set<K>, s: seq<T>, i: nat, keyOf: T -> K)
    requires i < |s|
    ensures var before := Grouped(base, s[..i], keyOf);
      var created := if keyOf(s[i]) in before then before else before[keyOf(s[i]) := []];
      Grouped(base, s[..i + 1], keyOf) == created[keyOf(s[i]) := created[keyOf(s[i])] + [s[i]]]
  {
    assert s[..i + 1] == s[..i] + [s[i]];
    GroupedSnoc(base, s[..i], s[i], keyOf);
  }

  /** Before any element, every base key has an empty bucket. */
  lemma GroupedEmpty<T, K>(base: set<K>, keyOf: T -> K)
    ensures Grouped(base, [], keyOf) == map k | k in base :: []
  {
  }

  /** The tail of a sorted list is sorted and bounded below by its head. */
  lemma SortedTail<T>(s: seq<T>, key: T -> seq<int>)
    requires s != [] && SortedBy(s, key)
    ensures SortedBy(s[1..], key)
    ensures forall y :: y in s[1..] ==> LexLe(key(s[0]), key(y))
  {
    forall i, j | 0 <= i < j < |s[1..]| ensures LexLe(key(s[1..][i]), key(s[1..][j])) {
      assert s[1..][i] == s[i + 1] && s[1..][j] == s[j + 1];
    }
    forall y | y in s[1..] ensures LexLe(key(s[0]), key(y)) {
      var k :| 0 <= k < |s[1..]| && s[1..][k] == y;
      assert s[k + 1] == y;
    }
  }

  /** A head no greater than any element of a sorted tail gives a sorted list. */
  lemma SortedCons<T>(x: T, rest: seq<T>, key: T -> seq<int>)
    requires SortedBy(rest, key)
    requires forall y :: y in rest ==> LexLe(key(x), key(y))
    ensures SortedBy([x] + rest, key)
  {
    var r := [x] + rest;
    forall i, j | 0 <= i < j < |r| ensures LexLe(key(r[i]), key(r[j])) {
      assert r[j] == rest[j - 1];
      if i > 0 {
        assert r[i] == rest[i - 1];
      }
    }
  }

  /** Removing elements keeps a sorted list sorted. */
  lemma {:induction false} RemoveWhereSorted<T>(s: seq<T>, idOf: T -> int, id: int, key: T -> seq<int>)
    requires SortedBy(s, key)
    ensures SortedBy(RemoveWhere(s, idOf, id), key)
  {
    if s != [] {
      SortedTail(s, key);
      RemoveWhereSorted(s[1..], idOf, id, key);
      var rest := RemoveWhere(s[1..], idOf, id);
      assert RemoveWhere(s, idOf, id) == (if idOf(s[0]) == id then [] else [s[0]]) + rest;
      if idOf(s[0]) != id {
        SortedCons(s[0], rest, key);
      } else {
        assert [] + rest == rest;
      }
    }
  }
}
