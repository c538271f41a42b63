/** The standard library's stable sort, as a specification, and the lexicographic order on texts. */
module Sorting {

  ghost predicate StrictWeakOrder<T(!new)>(before: (T, T) -> bool) {
    && (forall x, y :: before(x, y) ==> !before(y, x))
    && (forall x, y, z :: before(x, z) ==> before(x, y) || before(y, z))
  }

  ghost predicate StrictTotalOrder<T(!new)>(before: (T, T) -> bool) {
    && StrictWeakOrder(before)
    && (forall x, y :: before(x, y) || before(y, x) || x == y)
  }

  /** No later element ranks before an earlier one. */
  ghost predicate Sorted<T>(before: (T, T) -> bool, s: seq<T>) {
    forall i, j | 0 <= i < j < |s| :: !before(s[j], s[i])
  }

  /** Places x behind every element it does not rank before, which is what makes the sort stable. */
  function Insert<T>(before: (T, T) -> bool, s: seq<T>, x: T): (r: seq<T>)
    ensures multiset(r) == multiset(s) + multiset{x}
    ensures |r| == |s| + 1
  {
    if s == [] then [x]
    else
      var n := |s| - 1;
      assert s == s[..n] + [s[n]];
      if before(x, s[n]) then Insert(before, s[..n], x) + [s[n]] else s + [x]
  }

  function StableSort<T>(before: (T, T) -> bool, s: seq<T>): (r: seq<T>)
    ensures multiset(r) == multiset(s)
    ensures |r| == |s|
  {
    if s == [] then []
    else
      var n := |s| - 1;
      assert s == s[..n] + [s[n]];
      Insert(before, StableSort(before, s[..n]), s[n])
  }

  lemma SameElements<T>(s: seq<T>, r: seq<T>)
    requires multiset(s) == multiset(r)
    ensures forall x :: x in s <==> x in r
    ensures |s| == |r|
  {
    forall x ensures x in s <==> x in r {
      assert x in s <==> x in multiset(s);
      assert x in r <==> x in multiset(r);
    }
    assert |multiset(s)| == |s| && |multiset(r)| == |r|;
  }

  lemma {:induction false} InsertSorted<T(!new)>(before: (T, T) -> bool, s: seq<T>, x: T)
    requires StrictWeakOrder(before) && Sorted(before, s)
    ensures Sorted(before, Insert(before, s, x))
  {
    if s != [] {
      var n := |s| - 1;
      if before(x, s[n]) {
        InsertSorted(before, s[..n], x);
        var r := Insert(before, s[..n], x);
        forall i | 0 <= i < |r| ensures !before(s[n], r[i]) {
          assert r[i] in multiset(r);
          assert r[i] == x || r[i] in multiset(s[..n]);
          if r[i] != x {
            var k :| 0 <= k < n && s[k] == r[i];
          }
        }
      } else {
        forall i | 0 <= i < |s| ensures !before(x, s[i]) {
          assert i < n ==> !before(s[n], s[i]);
        }
      }
    }
  }

  lemma {:induction false} StableSortSorted<T(!new)>(before: (T, T) -> bool, s: seq<T>)
    requires StrictWeakOrder(before)
    ensures Sorted(before, StableSort(before, s))
  {
    if s != [] {
      StableSortSorted(before, s[..|s| - 1]);
      InsertSorted(before, StableSort(before, s[..|s| - 1]), s[|s| - 1]);
    }
  }

  lemma {:induction false} SortedStays<T(!new)>(before: (T, T) -> bool, s: seq<T>)
    requires Sorted(before, s)
    ensures StableSort(before, s) == s
  {
    hide Sorted, Insert;
    if s != [] {
      var n := |s| - 1;
      SortedSplits(before, s);
      SortedStays(before, s[..n]);
      InsertLast(before, s[..n], s[n]);
      assert s == s[..n] + [s[n]];
    }
  }

  lemma SortedSplits<T(!new)>(before: (T, T) -> bool, s: seq<T>)
    requires Sorted(before, s) && s != []
    ensures var n := |s| - 1; Sorted(before, s[..n]) && (n > 0 ==> !before(s[n], s[n - 1]))
  {
  }

  lemma InsertLast<T>(before: (T, T) -> bool, s: seq<T>, x: T)
    requires s != [] ==> !before(x, s[|s| - 1])
    ensures Insert(before, s, x) == s + [x]
  {
  }

  /** Under a total order there is only one sorted arrangement. */
  lemma {:induction false} SortedUnique<T(!new)>(before: (T, T) -> bool, s: seq<T>, r: seq<T>)
    requires StrictTotalOrder(before) && Sorted(before, s) && Sorted(before, r)
    requires multiset(s) == multiset(r)
    ensures s == r
  {
    SameElements(s, r);
    if s != [] {
      LastIsLast(before, s, r);
      LastIsLast(before, r, s);
      DropLast(s, r);
      SortedUnique(before, s[..|s| - 1], r[..|r| - 1]);
      assert s == s[..|s| - 1] + [s[|s| - 1]];
      assert r == r[..|r| - 1] + [r[|r| - 1]];
    }
  }

  lemma DropLast<T>(s: seq<T>, r: seq<T>)
    requires multiset(s) == multiset(r) && s != [] && r != [] && s[|s| - 1] == r[|r| - 1]
    ensures multiset(s[..|s| - 1]) == multiset(r[..|r| - 1])
  {
    assert s == s[..|s| - 1] + [s[|s| - 1]];
    assert r == r[..|r| - 1] + [r[|r| - 1]];
    assert multiset(s[..|s| - 1]) == multiset(s) - multiset{s[|s| - 1]};
    assert multiset(r[..|r| - 1]) == multiset(r) - multiset{r[|r| - 1]};
  }

  lemma LastIsLast<T(!new)>(before: (T, T) -> bool, s: seq<T>, r: seq<T>)
    requires StrictTotalOrder(before) && Sorted(before, s)
    requires multiset(s) == multiset(r) && s != [] && |s| == |r|
    ensures !before(s[|s| - 1], r[|r| - 1])
  {
    SameElements(s, r);
    assert r[|r| - 1] in s;
    var i :| 0 <= i < |s| && s[i] == r[|r| - 1];
    assert i < |s| - 1 ==> !before(s[|s| - 1], s[i]);
  }

  // ---------------------------------------------------------------- texts

  /** std::string's operator<. */
  predicate TextBefore(a: string, b: string) {
    b != "" && (a == "" || (if a[0] != b[0] then a[0] < b[0] else TextBefore(a[1..], b[1..])))
  }

  lemma {:induction false} TextBeforeTotal(a: string, b: string)
    ensures !TextBefore(a, a)
    ensures !(TextBefore(a, b) && TextBefore(b, a))
    ensures TextBefore(a, b) || TextBefore(b, a) || a == b
  {
    if a != "" {
      TextBeforeTotal(a[1..], if b == "" then "" else b[1..]);
      if b != "" && a[0] == b[0] {
        assert a == [a[0]] + a[1..] && b == [b[0]] + b[1..];
      }
    }
  }

  lemma {:induction false} TextBeforeNegativelyTransitive(a: string, b: string, c: string)
    requires TextBefore(a, c)
    ensures TextBefore(a, b) || TextBefore(b, c)
  {
    if a != "" && b != "" && a[0] == b[0] == c[0] {
      TextBeforeNegativelyTransitive(a[1..], b[1..], c[1..]);
    }
  }

  // ---------------------------------------------------------------- std::map's key order

  ghost predicate Ascending(keys: seq<string>) {
    forall i, j | 0 <= i < j < |keys| :: TextBefore(keys[i], keys[j])
  }

  lemma TextOrder()
    ensures StrictWeakOrder(TextBefore)
  {
    forall a, b | TextBefore(a, b) ensures !TextBefore(b, a) {
      TextBeforeTotal(a, b);
    }
    forall a, b, c | TextBefore(a, c) ensures TextBefore(a, b) || TextBefore(b, c) {
      TextBeforeNegativelyTransitive(a, b, c);
    }
  }

  lemma OnceEach<T>(list: seq<T>, sorted: seq<T>, i: nat, j: nat)
    requires multiset(list) == multiset(sorted) && i < j < |sorted|
    requires forall k, l | 0 <= k < l < |list| :: list[k] != list[l]
    ensures sorted[i] != sorted[j]
  {
    assert sorted == sorted[..i] + [sorted[i]] + sorted[i + 1..j] + [sorted[j]] + sorted[j + 1..];
    AtMostOnce(list, sorted[i]);
  }

  lemma Twice<T>(list: seq<T>, i: nat, j: nat)
    requires i < j < |list| && list[i] == list[j]
    ensures multiset(list)[list[i]] >= 2
  {
    assert list == list[..i] + [list[i]] + list[i + 1..j] + [list[j]] + list[j + 1..];
  }

  lemma {:induction false} AtMostOnce<T>(list: seq<T>, x: T)
    requires forall k, l | 0 <= k < l < |list| :: list[k] != list[l]
    ensures multiset(list)[x] <= 1
  {
    if list != [] {
      var n := |list| - 1;
      assert list == list[..n] + [list[n]];
      AtMostOnce(list[..n], x);
      if x == list[n] {
        assert x !in list[..n];
        assert x !in multiset(list[..n]);
      }
    }
  }

  /** The keys a map is iterated in. */
  method KeysInOrder<V>(m: map<string, V>) returns (keys: seq<string>)
    ensures forall k :: k in keys <==> k in m
    ensures Ascending(keys)
  {
    hide TextBefore;
    var list: seq<string>, rest := [], m.Keys;
    while rest != {}
      invariant rest <= m.Keys
      invariant forall k :: k in list <==> k in m && k !in rest
      invariant forall i, j | 0 <= i < j < |list| :: list[i] != list[j]
      decreases rest
    {
      var k :| k in rest;
      rest := rest - {k};
      list := list + [k];
    }
    keys := StableSort(TextBefore, list);
    TextOrder();
    StableSortSorted(TextBefore, list);
    SameElements(list, keys);
    forall i, j | 0 <= i < j < |keys| ensures TextBefore(keys[i], keys[j]) {
      OnceEach(list, keys, i, j);
      TextBeforeTotal(keys[i], keys[j]);
    }
  }
}
