/** Ordering helpers for square lists: the in-place numeric sort the board
    applies to a player's list (`Array.prototype.sort` with `(a, b) => a - b`),
    modelled as insertion sort, the filter that removes a square, and the
    general order-keeping filter. */
module Sorting {
  import opened Types

  /** Non-decreasing order. */
  predicate Ascending(s: seq<SquareId>) {
    forall i, j :: 0 <= i < j < |s| ==> s[i] <= s[j]
  }

  /** Strictly increasing order; implies the list has no duplicates. */
  predicate StrictlyAscending(s: seq<SquareId>) {
    forall i, j :: 0 <= i < j < |s| ==> s[i] < s[j]
  }

  predicate NoDuplicates(s: seq<SquareId>) {
    forall i, j :: 0 <= i < j < |s| ==> s[i] != s[j]
  }

  /** Appending a new element keeps a list free of duplicates. */
  lemma AppendNoDuplicates(t: seq<SquareId>, x: SquareId)
    requires NoDuplicates(t) && x !in t
    ensures NoDuplicates(t + [x])
  {
    var r := t + [x];
    forall i, j | 0 <= i < j < |r| ensures r[i] != r[j] {
      if j == |t| {
        assert r[i] == t[i];
      }
    }
  }

  /** Inserts `x` into `t` in front of the first element that is not smaller. */
  function Insert(t: seq<SquareId>, x: SquareId): (r: seq<SquareId>)
    ensures |r| == |t| + 1
    ensures forall y :: y in r ==> y in t || y == x
    ensures multiset(r) == multiset(t) + multiset{x}
  {
    if t == [] then [x]
    else if x <= t[0] then [x] + t
    else
      assert t == [t[0]] + t[1..];
      [t[0]] + Insert(t[1..], x)
  }

  lemma {:induction false} InsertAscending(t: seq<SquareId>, x: SquareId)
    requires Ascending(t)
    ensures Ascending(Insert(t, x))
  {
    if t == [] {
    } else if x <= t[0] {
      HeadAtMostTail([x] + t);
      ConsAscending(x, t);
    } else {
      HeadAtMostTail(t);
      InsertAscending(t[1..], x);
      ConsAscending(t[0], Insert(t[1..], x));
    }
  }

  /** In an ascending list the head is at most every later element. */
  lemma HeadAtMostTail(t: seq<SquareId>)
    requires Ascending(t) && t != []
    ensures Ascending(t[1..])
    ensures forall y :: y in t[1..] ==> t[0] <= y
  {
    assert forall y :: y in t[1..] ==> y in t;
  }

  /** Prefixing an ascending list with an element at most all of its elements keeps it ascending. */
  lemma ConsAscending(a: SquareId, rest: seq<SquareId>)
    requires Ascending(rest)
    requires forall y :: y in rest ==> a <= y
    ensures Ascending([a] + rest)
  {
    var r := [a] + rest;
    forall i, j | 0 <= i < j < |r| ensures r[i] <= r[j] {
      assert r[j] == rest[j - 1];
      if i > 0 {
        assert r[i] == rest[i - 1];
      } else {
        assert rest[j - 1] in rest;
      }
    }
  }

  lemma {:induction false} InsertStrictlyAscending(t: seq<SquareId>, x: SquareId)
    requires StrictlyAscending(t) && x !in t
    ensures StrictlyAscending(Insert(t, x))
  {
    if t != [] && x > t[0] {
      HeadBelowTail(t);
      InsertStrictlyAscending(t[1..], x);
      ConsStrictlyAscending(t[0], Insert(t[1..], x));
    }
  }

  /** In a strictly ascending list the head is below every later element. */
  lemma HeadBelowTail(t: seq<SquareId>)
    requires StrictlyAscending(t) && t != []
    ensures StrictlyAscending(t[1..])
    ensures forall y :: y in t[1..] ==> t[0] < y
  {
    assert forall y :: y in t[1..] ==> y in t;
  }

  /** Prefixing a strictly ascending list with a smaller element keeps it strictly ascending. */
  lemma ConsStrictlyAscending(a: SquareId, rest: seq<SquareId>)
    requires StrictlyAscending(rest)
    requires forall y :: y in rest ==> a < y
    ensures StrictlyAscending([a] + rest)
  {
    var r := [a] + rest;
    forall i, j | 0 <= i < j < |r| ensures r[i] < r[j] {
      assert r[j] == rest[j - 1];
      if i > 0 {
        assert r[i] == rest[i - 1];
      } else {
        assert rest[j - 1] in rest;
      }
    }
  }

  lemma {:induction false} InsertAtEnd(t: seq<SquareId>, x: SquareId)
    requires forall y :: y in t ==> y < x
    ensures Insert(t, x) == t + [x]
  {
    if t != [] {
      assert t == [t[0]] + t[1..];
      assert t[0] in t;
      assert forall y :: y in t[1..] ==> y in t;
      InsertAtEnd(t[1..], x);
    }
  }

  /** The sorted copy of `s`: ascending, same elements with the same multiplicities. */
  function Sort(s: seq<SquareId>): (r: seq<SquareId>)
    ensures |r| == |s|
    ensures multiset(r) == multiset(s)
    ensures Ascending(r)
    ensures NoDuplicates(s) ==> StrictlyAscending(r)
  {
    if s == [] then []
    else
      var init, last := s[..|s| - 1], s[|s| - 1];
      assert s == init + [last];
      assert last !in multiset(init) <== NoDuplicates(s);
      InsertKeepsOrder(Sort(init), last);
      Insert(Sort(init), last)
  }

  /** Insertion keeps an ascending list ascending, and a strictly ascending
      list strictly ascending when the new element is not already there. */
  lemma InsertKeepsOrder(t: seq<SquareId>, x: SquareId)
    ensures Ascending(t) ==> Ascending(Insert(t, x))
    ensures StrictlyAscending(t) && x !in t ==> StrictlyAscending(Insert(t, x))
  {
    if Ascending(t) {
      InsertAscending(t, x);
    }
    if StrictlyAscending(t) && x !in t {
      InsertStrictlyAscending(t, x);
    }
  }

  /** Sorting a list that is already strictly ascending leaves it unchanged. */
  lemma {:induction false} SortOfAscending(s: seq<SquareId>)
    requires StrictlyAscending(s)
    ensures Sort(s) == s
  {
    if s != [] {
      var init, last := s[..|s| - 1], s[|s| - 1];
      assert s == init + [last];
      LastAboveInit(init, last);
      SortOfAscending(init);
      InsertAtEnd(init, last);
      SortStep(s);
    }
  }

  /** In a strictly ascending list the last element is above all earlier ones,
      which are themselves strictly ascending. */
  lemma LastAboveInit(init: seq<SquareId>, last: SquareId)
    requires StrictlyAscending(init + [last])
    ensures StrictlyAscending(init)
    ensures forall y :: y in init ==> y < last
  {
    var s := init + [last];
    forall y | y in init ensures y < last {
      var k :| 0 <= k < |init| && init[k] == y;
      assert s[k] == y && s[|init|] == last;
    }
    forall i, j | 0 <= i < j < |init| ensures init[i] < init[j] {
      assert s[i] == init[i] && s[j] == init[j];
    }
  }

  /** One step of the sort: the last element is inserted into the sorted rest. */
  lemma SortStep(s: seq<SquareId>)
    requires s != []
    ensures Sort(s) == Insert(Sort(s[..|s| - 1]), s[|s| - 1])
  {
  }

  /** Sorting `s + [x]` inserts `x` into the sorted `s`. */
  lemma SortAppend(s: seq<SquareId>, x: SquareId)
    ensures Sort(s + [x]) == Insert(Sort(s), x)
  {
    assert (s + [x])[..|s|] == s;
  }

  /** `s` without the square `x`, in the order of `s`. */
  function Remove(s: seq<SquareId>, x: SquareId): (r: seq<SquareId>)
    ensures forall y :: y in r <==> y in s && y != x
    ensures StrictlyAscending(s) ==> StrictlyAscending(r)
    ensures StrictlyAscending(s) && x in s ==> |r| == |s| - 1
    ensures x !in s ==> r == s
  {
    if s == [] then []
    else
      assert s == [s[0]] + s[1..];
      var rest := Remove(s[1..], x);
      ConsKeepsStrict(s, rest);
      (if s[0] == x then [] else [s[0]]) + rest
  }

  /** Putting the head of a strictly ascending list back in front of a strictly
      ascending selection from its tail keeps the order strict. */
  lemma ConsKeepsStrict(s: seq<SquareId>, rest: seq<SquareId>)
    requires s != []
    requires forall y :: y in rest ==> y in s[1..]
    requires StrictlyAscending(s[1..]) ==> StrictlyAscending(rest)
    ensures StrictlyAscending(s) ==> StrictlyAscending([s[0]] + rest)
  {
    if StrictlyAscending(s) {
      HeadBelowTail(s);
      ConsStrictlyAscending(s[0], rest);
    }
  }

  /** `filter` on a list of squares: the elements satisfying `f`, in order. */
  function Keep(t: seq<SquareId>, f: SquareId -> bool): (r: seq<SquareId>)
    ensures forall y :: y in r <==> y in t && f(y)
    ensures |r| <= |t|
  {
    if t == [] then []
    else
      assert forall y :: y in t <==> y == t[0] || y in t[1..];
      (if f(t[0]) then [t[0]] else []) + Keep(t[1..], f)
  }

  /** Filtering keeps a strictly ascending list strictly ascending. */
  lemma {:induction false} KeepStrictlyAscending(t: seq<SquareId>, f: SquareId -> bool)
    ensures StrictlyAscending(t) ==> StrictlyAscending(Keep(t, f))
  {
    if t != [] && StrictlyAscending(t) {
      HeadBelowTail(t);
      KeepStrictlyAscending(t[1..], f);
      if f(t[0]) {
        ConsStrictlyAscending(t[0], Keep(t[1..], f));
      }
    }
  }

  /** Filtering keeps every copy of a passing element and drops every copy of
      the others: `[0, 2, 2, 5]` filtered to column 2 has three elements. */
  lemma {:induction false} KeepCounts(t: seq<SquareId>, f: SquareId -> bool)
    ensures forall y :: multiset(Keep(t, f))[y] == (if f(y) then multiset(t)[y] else 0)
  {
    if t != [] {
      KeepCounts(t[1..], f);
      assert t == [t[0]] + t[1..];
      assert multiset(t) == multiset{t[0]} + multiset(t[1..]);
    }
  }

  /** Filtering keeps an ascending list ascending, so on a sorted list the
      result is the sorted list of the passing elements with their copies. */
  lemma {:induction false} KeepAscending(t: seq<SquareId>, f: SquareId -> bool)
    ensures Ascending(t) ==> Ascending(Keep(t, f))
  {
    if t != [] && Ascending(t) {
      HeadAtMostTail(t);
      KeepAscending(t[1..], f);
      if f(t[0]) {
        ConsAscending(t[0], Keep(t[1..], f));
      }
    }
  }

  /** Two tests that agree on every element keep the same elements. */
  lemma {:induction false} KeepAgrees(t: seq<SquareId>, f: SquareId -> bool, g: SquareId -> bool)
    requires forall y :: y in t ==> f(y) == g(y)
    ensures Keep(t, f) == Keep(t, g)
  {
    if t != [] {
      assert t[0] in t;
      assert forall y :: y in t[1..] ==> y in t;
      KeepAgrees(t[1..], f, g);
    }
  }
}
