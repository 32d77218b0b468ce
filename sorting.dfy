/** `sorted(postcodes, key=PostcodeLookup._clean)`: a stable sort of the raw
    postcodes by their cleaned form. Python's sort is stable, so its result is
    the one stable insertion sort gives. */
module Sorting {
  import opened Normalise
  import opened Ordering

  /** `x`'s cleaned key is at most `y`'s. */
  predicate KeyLe(x: string, y: string) {
    LexLe(Clean(x), Clean(y))
  }

  /** Non-decreasing by cleaned key. */
  predicate SortedByClean(s: seq<string>) {
    forall i, j :: 0 <= i < j < |s| ==> KeyLe(s[i], s[j])
  }

  /** The subsequence of `s` whose cleaned key is `key`, in its original order. */
  function WithKey(s: seq<string>, key: string): seq<string> {
    if s == [] then []
    else WithKey(s[..|s| - 1], key) + (if Clean(s[|s| - 1]) == key then [s[|s| - 1]] else [])
  }

  /** Inserts `x` after the last element whose key is not above `x`'s. */
  function Insert(x: string, t: seq<string>): (r: seq<string>)
    ensures multiset(r) == multiset(t) + multiset{x}
  {
    if t == [] then [x]
    else if KeyLe(t[|t| - 1], x) then t + [x]
    else
      assert t == t[..|t| - 1] + [t[|t| - 1]];
      Insert(x, t[..|t| - 1]) + [t[|t| - 1]]
  }

  /** Sorts `s` by inserting its elements one by one, in order. */
  function SortByClean(s: seq<string>): (r: seq<string>)
    ensures multiset(r) == multiset(s)
  {
    if s == [] then []
    else
      assert s == s[..|s| - 1] + [s[|s| - 1]];
      Insert(s[|s| - 1], SortByClean(s[..|s| - 1]))
  }

  /** The elements of `Insert(x, t)` are `x` and those of `t`. */
  lemma InsertMembers(x: string, t: seq<string>)
    ensures forall y :: y in Insert(x, t) <==> y == x || y in t
  {
    var r := Insert(x, t);
    assert forall y :: y in r <==> y in multiset(r);
    assert forall y :: y in t <==> y in multiset(t);
  }

  /** Every element of a sorted `t` has a key at most that of its last. */
  lemma LastIsGreatest(t: seq<string>, y: string)
    requires SortedByClean(t) && t != [] && y in t
    ensures KeyLe(y, t[|t| - 1])
  {
    var k :| 0 <= k < |t| && t[k] == y;
    if k == |t| - 1 {
      LexLeReflexive(Clean(y));
    }
  }

  lemma {:induction false} InsertSorted(x: string, t: seq<string>)
    requires SortedByClean(t)
    ensures SortedByClean(Insert(x, t))
  {
    if t != [] {
      var before, last := t[..|t| - 1], t[|t| - 1];
      if KeyLe(last, x) {
        var r := t + [x];
        forall i, j | 0 <= i < j < |r|
          ensures KeyLe(r[i], r[j])
        {
          if j == |t| {
            if i < |t| - 1 {
              LexLeTransitive(Clean(t[i]), Clean(last), Clean(x));
            }
          }
        }
      } else {
        LexLeTotal(Clean(last), Clean(x));
        assert SortedByClean(before);
        InsertSorted(x, before);
        var rest := Insert(x, before);
        InsertMembers(x, before);
        forall i | 0 <= i < |rest|
          ensures KeyLe(rest[i], last)
        {
          if rest[i] != x {
            assert rest[i] in before;
            assert rest[i] in t;
            LastIsGreatest(t, rest[i]);
          }
        }
        var r := rest + [last];
        forall i, j | 0 <= i < j < |r|
          ensures KeyLe(r[i], r[j])
        {
          if j < |rest| {
            assert r[i] == rest[i] && r[j] == rest[j];
          }
        }
      }
    }
  }

  /** The sorted batch is in non-decreasing order of cleaned key and is a
      permutation of the input. */
  lemma {:induction false} SortByCleanSorted(s: seq<string>)
    ensures SortedByClean(SortByClean(s))
    ensures multiset(SortByClean(s)) == multiset(s)
  {
    if s != [] {
      SortByCleanSorted(s[..|s| - 1]);
      InsertSorted(s[|s| - 1], SortByClean(s[..|s| - 1]));
    }
  }

  /** Taking the postcodes of one key commutes with appending. */
  lemma WithKeySnoc(s: seq<string>, y: string, key: string)
    ensures WithKey(s + [y], key) == WithKey(s, key) + (if Clean(y) == key then [y] else [])
  {
    assert (s + [y])[..|s|] == s;
  }

  /** Inserting `x` puts it after every postcode of its own key. */
  lemma {:induction false} InsertWithKey(x: string, t: seq<string>, key: string)
    ensures WithKey(Insert(x, t), key) == WithKey(t, key) + (if Clean(x) == key then [x] else [])
  {
    if t != [] {
      var before, last := t[..|t| - 1], t[|t| - 1];
      assert t == before + [last];
      if KeyLe(last, x) {
        WithKeySnoc(t, x, key);
      } else {
        var rest := Insert(x, before);
        assert Insert(x, t) == rest + [last];
        InsertWithKey(x, before, key);
        WithKeySnoc(rest, last, key);
        WithKeySnoc(before, last, key);
        // `last` goes after `x` only when their keys differ
        LexLeReflexive(Clean(x));
        SwapEmpty(WithKey(before, key), if Clean(x) == key then [x] else [], if Clean(last) == key then [last] else []);
      }
    }
  }

  /** Two pieces, one of them empty, can be appended in either order. */
  lemma SwapEmpty(a: seq<string>, m: seq<string>, n: seq<string>)
    requires m == [] || n == []
    ensures a + m + n == a + n + m
  {
    if m == [] {
      assert a + m == a;
    } else {
      assert a + n == a;
    }
  }

  /** Stability: postcodes with the same cleaned key keep their relative order. */
  lemma {:induction false} SortByCleanStable(s: seq<string>, key: string)
    ensures WithKey(SortByClean(s), key) == WithKey(s, key)
  {
    if s != [] {
      var before, last := s[..|s| - 1], s[|s| - 1];
      SortByCleanStable(before, key);
      InsertWithKey(last, SortByClean(before), key);
    }
  }
}
