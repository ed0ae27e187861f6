/**
 * The table operations the gold stage borrows from pandas: filtering, a descending
 * sort on one integer column (`sort_values(col, ascending=False)`) and
 * `drop_duplicates(subset=..., keep='first')`.
 *
 * pandas sorts one column with an unstable quicksort by default; this model fixes the
 * order of ties to the input order, i.e. the sort is stable.
 */
module Sorting {
  import opened Wrappers

  /** The elements of `s` satisfying `p`, in order. */
  function Filter<T>(s: seq<T>, p: T -> bool): (r: seq<T>)
    ensures |r| <= |s|
  {
    if s == [] then [] else (if p(s[0]) then [s[0]] else []) + Filter(s[1..], p)
  }

  lemma {:induction false} FilterConcat<T>(a: seq<T>, b: seq<T>, p: T -> bool)
    ensures Filter(a + b, p) == Filter(a, p) + Filter(b, p)
  {
    if a == [] {
      assert a + b == b;
    } else {
      assert (a + b)[0] == a[0];
      assert (a + b)[1..] == a[1..] + b;
      FilterConcat(a[1..], b, p);
      ConcatAssoc(if p(a[0]) then [a[0]] else [], Filter(a[1..], p), Filter(b, p));
    }
  }

  lemma FilterCons<T>(a: T, t: seq<T>, p: T -> bool)
    ensures Filter([a] + t, p) == (if p(a) then [a] else []) + Filter(t, p)
  {
    assert ([a] + t)[0] == a && ([a] + t)[1..] == t;
  }

  /** A filter keeps exactly the members of `s` that satisfy `p`. */
  lemma {:induction false} FilterMembers<T>(s: seq<T>, p: T -> bool, x: T)
    ensures x in Filter(s, p) <==> x in s && p(x)
  {
    if s != [] {
      FilterMembers(s[1..], p, x);
      assert x in s <==> x == s[0] || x in s[1..];
    }
  }

  /** Keys never increase from left to right. */
  ghost predicate SortedDesc<T>(s: seq<T>, key: T -> int) {
    forall i, j :: 0 <= i < j < |s| ==> key(s[i]) >= key(s[j])
  }

  /** `x` placed after every element whose key is at least its own. */
  function Insert<T>(x: T, s: seq<T>, key: T -> int): (r: seq<T>)
    ensures |r| == |s| + 1
    ensures multiset(r) == multiset(s) + multiset{x}
  {
    if s == [] then [x]
    else if key(s[0]) >= key(x) then
      assert s == [s[0]] + s[1..];
      [s[0]] + Insert(x, s[1..], key)
    else [x] + s
  }

  lemma {:induction false} InsertSorted<T>(x: T, s: seq<T>, key: T -> int)
    requires SortedDesc(s, key)
    ensures SortedDesc(Insert(x, s, key), key)
  {
    if s != [] && key(s[0]) >= key(x) {
      InsertSorted(x, s[1..], key);
      var r := Insert(x, s, key);
      assert r[1..] == Insert(x, s[1..], key);
      forall j | 1 <= j < |r| ensures key(r[0]) >= key(r[j]) {
        assert r[j] in multiset(Insert(x, s[1..], key));
        assert r[j] == x || r[j] in multiset(s[1..]);
        if r[j] != x {
          var m :| 0 <= m < |s[1..]| && s[1..][m] == r[j];
          assert s[m + 1] == r[j];
        }
      }
    }
  }

  /** Dropping the head of a sorted sequence leaves it sorted. */
  lemma SortedTail<T>(s: seq<T>, key: T -> int)
    requires s != [] && SortedDesc(s, key)
    ensures SortedDesc(s[1..], key)
  {
    forall i, j | 0 <= i < j < |s| - 1 ensures key(s[1..][i]) >= key(s[1..][j]) {
      assert s[1..][i] == s[i + 1] && s[1..][j] == s[j + 1];
    }
  }

  /**
   * Inserting `x` into a sorted sequence leaves every other element of its key in
   * front of it: a filter that only keeps elements with `x`'s key sees `x` last.
   */
  lemma {:induction false} InsertFilter<T>(x: T, s: seq<T>, key: T -> int, p: T -> bool)
    requires SortedDesc(s, key)
    requires forall y :: y in s && p(y) ==> key(y) == key(x)
    ensures Filter(Insert(x, s, key), p) == Filter(s, p) + (if p(x) then [x] else [])
    decreases |s|, 1
  {
    if s == [] {
      FilterCons(x, [], p);
    } else if key(s[0]) >= key(x) {
      InsertFilterPast(x, s, key, p);
    } else {
      FilterCons(x, s, p);
      if p(x) {
        AllBelow(x, s, key, p);
        FilterNone(s, p);
      }
    }
  }

  /** `InsertFilter` when `x` goes past the head of `s`. */
  lemma {:induction false} InsertFilterPast<T>(x: T, s: seq<T>, key: T -> int, p: T -> bool)
    requires SortedDesc(s, key)
    requires forall y :: y in s && p(y) ==> key(y) == key(x)
    requires s != [] && key(s[0]) >= key(x)
    ensures Filter(Insert(x, s, key), p) == Filter(s, p) + (if p(x) then [x] else [])
    decreases |s|, 0
  {
    var t := s[1..];
    InsertFront(x, s, key);
    SortedTail(s, key);
    assert forall y :: y in t ==> y in s;
    InsertFilter(x, t, key, p);
    FilterCons(s[0], Insert(x, t, key), p);
    var h, e := (if p(s[0]) then [s[0]] else []), (if p(x) then [x] else []);
    assert Filter(s, p) == h + Filter(t, p);
    ConcatAssoc(h, Filter(t, p), e);
  }

  /** Concatenation is associative. */
  lemma ConcatAssoc<T>(a: seq<T>, b: seq<T>, c: seq<T>)
    ensures a + (b + c) == (a + b) + c
  {
  }

  /** An element whose key is at least `x`'s stays in front of it. */
  lemma InsertFront<T>(x: T, s: seq<T>, key: T -> int)
    requires s != [] && key(s[0]) >= key(x)
    ensures Insert(x, s, key) == [s[0]] + Insert(x, s[1..], key)
  {
  }

  /** When `x`'s key beats the head of a sorted sequence, no element of `x`'s key is in it. */
  lemma AllBelow<T>(x: T, s: seq<T>, key: T -> int, p: T -> bool)
    requires s != [] && key(s[0]) < key(x) && SortedDesc(s, key)
    requires forall y :: y in s && p(y) ==> key(y) == key(x)
    ensures forall y :: y in s ==> !p(y)
  {
    forall y | y in s ensures !p(y) {
      var m :| 0 <= m < |s| && s[m] == y;
      assert key(s[m]) <= key(s[0]);
    }
  }

  /** A filter that rejects every element yields nothing. */
  lemma {:induction false} FilterNone<T>(s: seq<T>, p: T -> bool)
    requires forall y :: y in s ==> !p(y)
    ensures Filter(s, p) == []
  {
    if s != [] {
      FilterNone(s[1..], p);
    }
  }

  /** `sort_values(key, ascending=False)` as a stable insertion sort. */
  function SortDesc<T>(s: seq<T>, key: T -> int): (r: seq<T>)
    ensures |r| == |s|
    ensures multiset(r) == multiset(s)
    ensures SortedDesc(r, key)
  {
    if s == [] then []
    else
      var init := s[..|s| - 1];
      assert s == init + [s[|s| - 1]];
      var sorted := SortDesc(init, key);
      InsertSorted(s[|s| - 1], sorted, key);
      Insert(s[|s| - 1], sorted, key)
  }

  /**
   * Stability: among elements that share a key, the sort keeps the input order. For
   * every filter that only keeps elements of one key, sorting first changes nothing.
   */
  lemma {:induction false} SortStable<T>(s: seq<T>, key: T -> int, p: T -> bool, v: int)
    requires forall y :: y in s && p(y) ==> key(y) == v
    ensures Filter(SortDesc(s, key), p) == Filter(s, p)
  {
    if s != [] {
      var init, x := s[..|s| - 1], s[|s| - 1];
      assert s == init + [x];
      assert forall y :: y in init ==> y in s;
      var tail := if p(x) then [x] else [];
      calc {
        Filter(SortDesc(s, key), p);
        { assert SortDesc(s, key) == Insert(x, SortDesc(init, key), key); }
        Filter(Insert(x, SortDesc(init, key), key), p);
        { InsertIntoSorted(x, init, key, p, v); }
        Filter(SortDesc(init, key), p) + tail;
        { SortStable(init, key, p, v); }
        Filter(init, p) + tail;
        { FilterCons(x, [], p); }
        Filter(init, p) + Filter([x], p);
        { FilterConcat(init, [x], p); }
        Filter(s, p);
      }
    }
  }

  /** One step of the insertion sort, seen through a filter of one key. */
  lemma InsertIntoSorted<T>(x: T, init: seq<T>, key: T -> int, p: T -> bool, v: int)
    requires forall y :: y in init && p(y) ==> key(y) == v
    requires p(x) ==> key(x) == v
    ensures Filter(Insert(x, SortDesc(init, key), key), p)
              == Filter(SortDesc(init, key), p) + (if p(x) then [x] else [])
  {
    var sorted := SortDesc(init, key);
    if p(x) {
      forall y | y in sorted && p(y) ensures key(y) == key(x) {
        assert y in multiset(init);
      }
      InsertFilter(x, sorted, key, p);
    } else {
      InsertFilterSkip(x, sorted, key, p);
    }
  }

  /** An element the filter drops does not change the filter wherever it is inserted. */
  lemma {:induction false} InsertFilterSkip<T>(x: T, s: seq<T>, key: T -> int, p: T -> bool)
    requires !p(x)
    ensures Filter(Insert(x, s, key), p) == Filter(s, p)
  {
    if s == [] {
      FilterCons(x, [], p);
    } else if key(s[0]) >= key(x) {
      var t := s[1..];
      assert s == [s[0]] + t;
      InsertFilterSkip(x, t, key, p);
      FilterCons(s[0], Insert(x, t, key), p);
      FilterCons(s[0], t, p);
    } else {
      FilterCons(x, s, p);
    }
  }

  /** No element before index `i` shares the key of `s[i]`. */
  ghost predicate FirstOfKey<T, K>(s: seq<T>, key: T -> K, i: int)
    requires 0 <= i < |s|
  {
    forall j :: 0 <= j < i ==> key(s[j]) != key(s[i])
  }

  /** Some element of `s` has key `k`. */
  predicate HasKey<T, K(==)>(s: seq<T>, key: T -> K, k: K) {
    exists j :: 0 <= j < |s| && key(s[j]) == k
  }

  /** `drop_duplicates(subset=key, keep='first')`: the first element of each key, in order. */
  function DropDuplicates<T, K(==)>(s: seq<T>, key: T -> K): seq<T>
  {
    if s == [] then []
    else
      var init, x := s[..|s| - 1], s[|s| - 1];
      if HasKey(init, key, key(x)) then DropDuplicates(init, key)
      else DropDuplicates(init, key) + [x]
  }

  /**
   * What `drop_duplicates(keep='first')` keeps: one element per key, each the first
   * of its key in `s`, and every key of `s` is kept.
   */
  lemma {:induction false} DropDuplicatesFacts<T, K>(s: seq<T>, key: T -> K)
    ensures forall i, j :: 0 <= i < j < |DropDuplicates(s, key)| ==>
              key(DropDuplicates(s, key)[i]) != key(DropDuplicates(s, key)[j])
    ensures forall y :: y in DropDuplicates(s, key) ==>
              exists i :: 0 <= i < |s| && s[i] == y && FirstOfKey(s, key, i)
    ensures forall x :: x in s ==> exists y :: y in DropDuplicates(s, key) && key(y) == key(x)
  {
    if s != [] {
      var init, x := s[..|s| - 1], s[|s| - 1];
      var r := DropDuplicates(init, key);
      DropDuplicatesFacts(init, key);
      assert s == init + [x];
      FirstOfKeyPrefix(s, init, key);
      if HasKey(init, key, key(x)) {
        forall z | z in s ensures exists y :: y in r && key(y) == key(z) {
          if z == x {
            var j :| 0 <= j < |init| && key(init[j]) == key(x);
            assert init[j] in init;
          }
        }
      } else {
        var r' := r + [x];
        assert FirstOfKey(s, key, |s| - 1);
        forall y | y in r ensures key(y) != key(x) {
          var i :| 0 <= i < |init| && init[i] == y && FirstOfKey(init, key, i);
        }
        forall i, j | 0 <= i < j < |r'| ensures key(r'[i]) != key(r'[j]) {
          if j == |r| { assert r'[i] in r; }
          else { assert r'[i] == r[i] && r'[j] == r[j]; }
        }
        forall y | y in r' ensures exists i :: 0 <= i < |s| && s[i] == y && FirstOfKey(s, key, i) {
          if y != x { assert y in r; }
        }
        forall z | z in s ensures exists y :: y in r' && key(y) == key(z) {
          if z != x { assert z in init; }
        }
      }
    }
  }

  /**
   * Every two elements of `d` appear, in the same order, as first elements of their key
   * in `s`.
   */
  ghost predicate InOrderFirsts<T, K>(s: seq<T>, key: T -> K, d: seq<T>) {
    forall i, j :: 0 <= i < j < |d| ==> FirstsInOrder(s, key, d[i], d[j])
  }

  /** `x` and `y` are the first elements of their keys in `s`, `x` before `y`. */
  ghost predicate FirstsInOrder<T, K>(s: seq<T>, key: T -> K, x: T, y: T) {
    exists a, b :: 0 <= a < b < |s| && s[a] == x && s[b] == y && FirstOfKey(s, key, a) && FirstOfKey(s, key, b)
  }

  /**
   * `drop_duplicates` keeps the input order: of two kept elements, the earlier one is
   * the first of its key at an earlier position of `s` than the later one.
   */
  lemma {:induction false} DropDuplicatesOrder<T, K>(s: seq<T>, key: T -> K)
    ensures forall i, j :: 0 <= i < j < |DropDuplicates(s, key)| ==>
              FirstsInOrder(s, key, DropDuplicates(s, key)[i], DropDuplicates(s, key)[j])
  {
    InOrderFirstsOf(s, key);
  }

  lemma {:induction false} InOrderFirstsOf<T, K>(s: seq<T>, key: T -> K)
    ensures InOrderFirsts(s, key, DropDuplicates(s, key))
  {
    if s == [] {
      assert DropDuplicates(s, key) == [];
    } else {
      var init, x := s[..|s| - 1], s[|s| - 1];
      var r := DropDuplicates(init, key);
      InOrderFirstsOf(init, key);
      InOrderLift(s, init, key, r);
      if HasKey(init, key, key(x)) {
        assert DropDuplicates(s, key) == r;
      } else {
        assert DropDuplicates(s, key) == r + [x];
        DropDuplicatesFacts(init, key);
        FirstOfKeyPrefix(s, init, key);
        assert FirstOfKey(s, key, |s| - 1);
        InOrderSnoc(s, init, key, r);
      }
    }
  }

  /** The order facts about a prefix of `s` hold in `s`. */
  lemma InOrderLift<T, K>(s: seq<T>, init: seq<T>, key: T -> K, r: seq<T>)
    requires |init| <= |s| && init == s[..|init|] && InOrderFirsts(init, key, r)
    ensures InOrderFirsts(s, key, r)
  {
    FirstOfKeyPrefix(s, init, key);
    forall i, j | 0 <= i < j < |r|
      ensures FirstsInOrder(s, key, r[i], r[j])
    {
      assert FirstsInOrder(init, key, r[i], r[j]);
      var a, b :| 0 <= a < b < |init| && init[a] == r[i] && init[b] == r[j]
                  && FirstOfKey(init, key, a) && FirstOfKey(init, key, b);
      assert s[a] == init[a] && s[b] == init[b];
    }
  }

  /** Appending the last element of `s`, the first of its key, keeps the order facts. */
  lemma InOrderSnoc<T, K>(s: seq<T>, init: seq<T>, key: T -> K, r: seq<T>)
    requires s != [] && init == s[..|s| - 1] && FirstOfKey(s, key, |s| - 1)
    requires InOrderFirsts(s, key, r)
    requires forall y :: y in r ==> exists a :: 0 <= a < |init| && init[a] == y && FirstOfKey(init, key, a)
    ensures InOrderFirsts(s, key, r + [s[|s| - 1]])
  {
    FirstOfKeyPrefix(s, init, key);
    var r' := r + [s[|s| - 1]];
    forall i, j | 0 <= i < j < |r'|
      ensures FirstsInOrder(s, key, r'[i], r'[j])
    {
      if j == |r| {
        assert r'[i] == r[i] && r[i] in r;
        var a :| 0 <= a < |init| && init[a] == r[i] && FirstOfKey(init, key, a);
        assert s[a] == init[a] && s[|s| - 1] == r'[j];
      } else {
        assert r'[i] == r[i] && r'[j] == r[j];
        assert FirstsInOrder(s, key, r[i], r[j]);
      }
    }
  }

  /** Dropping duplicates keeps a subsequence, so a sorted sequence stays sorted. */
  lemma {:induction false} DropDuplicatesSorted<T, K>(s: seq<T>, key: T -> K, ord: T -> int)
    requires SortedDesc(s, ord)
    ensures SortedDesc(DropDuplicates(s, key), ord)
  {
    if s != [] {
      var init, x := s[..|s| - 1], s[|s| - 1];
      assert SortedDesc(init, ord);
      DropDuplicatesSorted(init, key, ord);
      DropDuplicatesFacts(init, key);
      var r := DropDuplicates(init, key);
      if !HasKey(init, key, key(x)) {
        forall i | 0 <= i < |r| ensures ord(r[i]) >= ord(x) {
          assert r[i] in r;
          var m :| 0 <= m < |init| && init[m] == r[i] && FirstOfKey(init, key, m);
          assert s[m] == r[i];
        }
      }
    }
  }

  /** Being first of its key in a prefix is being first of its key in the whole. */
  lemma FirstOfKeyPrefix<T, K>(s: seq<T>, init: seq<T>, key: T -> K)
    requires |init| <= |s| && init == s[..|init|]
    ensures forall i :: 0 <= i < |init| && FirstOfKey(init, key, i) ==> FirstOfKey(s, key, i)
  {
    forall i | 0 <= i < |init| && FirstOfKey(init, key, i) ensures FirstOfKey(s, key, i) {
      forall j | 0 <= j < i ensures key(s[j]) != key(s[i]) {
        assert s[j] == init[j] && s[i] == init[i];
      }
    }
  }

  // ---------------------------------------------------------------------------
  // A loop that appends what a per-element decision keeps
  // ---------------------------------------------------------------------------

  /** `f` may be applied to every element of `s`. */
  ghost predicate Defined<T, U>(s: seq<T>, f: T --> Option<U>) {
    forall k :: 0 <= k < |s| ==> f.requires(s[k])
  }

  /** The values `f` keeps for the elements of `s`, in order (`rows.append(...)` in a loop). */
  function Kept<T, U>(s: seq<T>, f: T --> Option<U>): seq<U>
    requires Defined(s, f)
    decreases |s|
  {
    if s == [] then []
    else
      var last := f(s[|s| - 1]);
      Kept(s[..|s| - 1], f) + (if last.Some? then [last.value] else [])
  }

  /** One more loop step: the prefix of length `m + 1` keeps what the prefix of length `m` keeps, then `f(s[m])`. */
  lemma KeptStep<T, U>(s: seq<T>, f: T --> Option<U>, m: nat)
    requires Defined(s, f) && m < |s|
    ensures Defined(s[..m], f) && Defined(s[..m + 1], f)
    ensures Kept(s[..m + 1], f) == Kept(s[..m], f) + (if f(s[m]).Some? then [f(s[m]).value] else [])
  {
    assert s[..m + 1][..m] == s[..m];
  }

  /** Every kept value is what `f` yields for some element. */
  lemma {:induction false} KeptSound<T, U>(s: seq<T>, f: T --> Option<U>, u: U)
    requires Defined(s, f) && u in Kept(s, f)
    ensures exists k :: 0 <= k < |s| && f(s[k]) == Some(u)
    decreases |s|
  {
    var init := s[..|s| - 1];
    assert Defined(init, f) by {
      forall k | 0 <= k < |init| ensures init[k] == s[k] { }
    }
    if u in Kept(init, f) {
      KeptSound(init, f, u);
      var k :| 0 <= k < |init| && f(init[k]) == Some(u);
      assert s[k] == init[k];
    } else {
      assert f(s[|s| - 1]) == Some(u);
    }
  }

  /** Every value `f` yields for an element is kept. */
  lemma {:induction false} KeptComplete<T, U>(s: seq<T>, f: T --> Option<U>, k: nat)
    requires Defined(s, f) && k < |s| && f(s[k]).Some?
    ensures f(s[k]).value in Kept(s, f)
    decreases |s|
  {
    var init := s[..|s| - 1];
    assert Defined(init, f) by {
      forall j | 0 <= j < |init| ensures init[j] == s[j] { }
    }
    if k < |init| {
      assert init[k] == s[k];
      KeptComplete(init, f, k);
    }
  }

  /** The sequences `f` yields for the elements of `s`, concatenated in order. */
  function FlatMap<T, U>(s: seq<T>, f: T -> seq<U>): seq<U>
    decreases |s|
  {
    if s == [] then [] else FlatMap(s[..|s| - 1], f) + f(s[|s| - 1])
  }

  lemma FlatMapStep<T, U>(s: seq<T>, f: T -> seq<U>, m: nat)
    requires m < |s|
    ensures FlatMap(s[..m + 1], f) == FlatMap(s[..m], f) + f(s[m])
  {
    assert s[..m + 1][..m] == s[..m];
  }

  /** Every element of the concatenation comes from one of the parts. */
  lemma {:induction false} FlatMapSound<T, U>(s: seq<T>, f: T -> seq<U>, u: U)
    requires u in FlatMap(s, f)
    ensures exists i :: 0 <= i < |s| && u in f(s[i])
    decreases |s|
  {
    var init := s[..|s| - 1];
    if u in FlatMap(init, f) {
      FlatMapSound(init, f, u);
      var i :| 0 <= i < |init| && u in f(init[i]);
      assert s[i] == init[i];
    }
  }

  /** Every element of every part is in the concatenation. */
  lemma {:induction false} FlatMapComplete<T, U>(s: seq<T>, f: T -> seq<U>, i: nat, u: U)
    requires i < |s| && u in f(s[i])
    ensures u in FlatMap(s, f)
    decreases |s|
  {
    var init := s[..|s| - 1];
    if i < |init| {
      assert init[i] == s[i];
      FlatMapComplete(init, f, i, u);
    }
  }

  /** If nothing before index `i` passes the filter and `s[i]` does, the filter starts with `s[i]`. */
  lemma FirstFilter<T>(s: seq<T>, p: T -> bool, i: nat)
    requires i < |s| && p(s[i])
    requires forall j :: 0 <= j < i ==> !p(s[j])
    ensures Filter(s, p) != [] && Filter(s, p)[0] == s[i]
  {
    var pre, post := s[..i], s[i + 1..];
    assert s == pre + ([s[i]] + post);
    forall x | x in pre ensures !p(x) {
      var j :| 0 <= j < i && pre[j] == x;
    }
    FilterNone(pre, p);
    FilterConcat(pre, [s[i]] + post, p);
    FilterCons(s[i], post, p);
  }

  /** The first element a filter keeps is the first element of `s` that passes. */
  lemma {:induction false} FilterHead<T>(s: seq<T>, p: T -> bool)
    requires Filter(s, p) != []
    ensures exists j :: 0 <= j < |s| && s[j] == Filter(s, p)[0] && p(s[j]) && forall i :: 0 <= i < j ==> !p(s[i])
  {
    if p(s[0]) {
      assert s[0] == Filter(s, p)[0];
    } else {
      FilterHead(s[1..], p);
      var j :| 0 <= j < |s[1..]| && s[1..][j] == Filter(s[1..], p)[0] && p(s[1..][j])
               && forall i :: 0 <= i < j ==> !p(s[1..][i]);
      forall i | 0 <= i < j + 1 ensures !p(s[i]) {
        if i > 0 {
          assert s[i] == s[1..][i - 1];
        }
      }
      assert s[j + 1] == s[1..][j];
    }
  }

  /** Appending one element to the filtered sequence. */
  lemma FilterSnoc<T>(s: seq<T>, p: T -> bool, m: nat)
    requires m < |s|
    ensures Filter(s[..m + 1], p) == Filter(s[..m], p) + (if p(s[m]) then [s[m]] else [])
  {
    assert s[..m + 1] == s[..m] + [s[m]];
    FilterConcat(s[..m], [s[m]], p);
    FilterCons(s[m], [], p);
    assert [s[m]] + [] == [s[m]];
  }
}
