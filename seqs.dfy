/**
 * The array operations the board code is written with: `filter`,
 * `findIndex`/`find`, `some`, `splice(i, 1)`, and a JavaScript `Set` kept in
 * insertion order.
 */
module Seqs {

  /** `s.filter(p)`: the elements satisfying `p`, each as often as in `s`, in order. */
  function Filter<T(!new)>(s: seq<T>, p: T -> bool): (r: seq<T>)
    ensures |r| <= |s|
    ensures forall x :: x in r <==> x in s && p(x)
  {
    if s == [] then []
    else (if p(s[0]) then [s[0]] else []) + Filter(s[1..], p)
  }

  /** `filter` keeps every passing element exactly as often as it occurs. */
  lemma {:induction false} FilterMultiset<T(!new)>(s: seq<T>, p: T -> bool)
    ensures forall x :: multiset(Filter(s, p))[x] == if p(x) then multiset(s)[x] else 0
    decreases |s|
  {
    if s != [] {
      FilterMultiset(s[1..], p);
      assert s == [s[0]] + s[1..];
    }
  }

  /** `s.findIndex(p)`: the first position satisfying `p`, or -1. */
  function FirstIndex<T>(s: seq<T>, p: T -> bool): (r: int)
    ensures -1 <= r < |s|
    ensures r >= 0 ==> p(s[r]) && forall j :: 0 <= j < r ==> !p(s[j])
    ensures r == -1 <==> forall j :: 0 <= j < |s| ==> !p(s[j])
  {
    if s == [] then -1
    else if p(s[0]) then 0
    else
      var k := FirstIndex(s[1..], p);
      if k < 0 then -1 else k + 1
  }

  /** A position that satisfies `p` with no earlier one doing so is what `findIndex` returns. */
  lemma FirstIndexIs<T>(s: seq<T>, p: T -> bool, k: nat)
    requires k < |s| && p(s[k]) && forall j :: 0 <= j < k ==> !p(s[j])
    ensures FirstIndex(s, p) == k
  {
  }

  /** `s.splice(i, 1)`: drop the element at position `i`. */
  function RemoveAt<T>(s: seq<T>, i: nat): (r: seq<T>)
    requires i < |s|
    ensures |r| == |s| - 1
    ensures forall j :: 0 <= j < i ==> r[j] == s[j]
    ensures forall j :: i <= j < |r| ==> r[j] == s[j + 1]
    ensures multiset(r) == multiset(s) - multiset{s[i]}
  {
    assert s == s[..i] + [s[i]] + s[i + 1..];
    s[..i] + s[i + 1..]
  }

  lemma {:induction false} FilterConcat<T(!new)>(s: seq<T>, t: seq<T>, p: T -> bool)
    ensures Filter(s + t, p) == Filter(s, p) + Filter(t, p)
    decreases |s|
  {
    if s != [] {
      var head := if p(s[0]) then [s[0]] else [];
      assert (s + t)[0] == s[0] && (s + t)[1..] == s[1..] + t;
      assert Filter(s + t, p) == head + Filter(s[1..] + t, p);
      FilterConcat(s[1..], t, p);
      assert Filter(s, p) == head + Filter(s[1..], p);
    } else {
      assert s + t == t;
    }
  }

  /** Filtering keeps everything when every element passes. */
  lemma {:induction false} FilterKeepsAll<T(!new)>(s: seq<T>, p: T -> bool)
    requires forall x :: x in s ==> p(x)
    ensures Filter(s, p) == s
    decreases |s|
  {
    if s != [] {
      FilterKeepsAll(s[1..], p);
    }
  }

  /** Filtering an appended element that fails `p` gives back the filtered prefix. */
  lemma AppendFiltered<T(!new)>(s: seq<T>, x: T, p: T -> bool)
    ensures Filter(s + [x], p) == Filter(s, p) + (if p(x) then [x] else [])
  {
    FilterConcat(s, [x], p);
  }

  /** Replacing one element changes the number of elements passing a filter by at most one. */
  lemma {:induction false} FilterUpdate<T(!new)>(s: seq<T>, i: nat, x: T, p: T -> bool)
    requires i < |s|
    ensures |Filter(s[i := x], p)| <= |Filter(s, p)| + 1
    ensures p(s[i]) ==> |Filter(s[i := x], p)| <= |Filter(s, p)|
    ensures !p(x) ==> |Filter(s[i := x], p)| <= |Filter(s, p)|
    decreases |s|
  {
    if i > 0 {
      assert s[i := x][1..] == s[1..][i - 1 := x];
      FilterUpdate(s[1..], i - 1, x, p);
    } else {
      assert s[i := x][1..] == s[1..];
    }
  }

  /** A relation that holds between every earlier and later element still holds after filtering. */
  lemma {:induction false} FilterPairwise<T(!new)>(s: seq<T>, p: T -> bool, ok: (T, T) -> bool)
    requires forall i, j :: 0 <= i < j < |s| ==> ok(s[i], s[j])
    ensures forall i, j :: 0 <= i < j < |Filter(s, p)| ==> ok(Filter(s, p)[i], Filter(s, p)[j])
    decreases |s|
  {
    if s != [] {
      FilterPairwise(s[1..], p, ok);
      var r := Filter(s, p);
      var t := Filter(s[1..], p);
      if p(s[0]) {
        assert r == [s[0]] + t;
        forall i, j | 0 <= i < j < |r| ensures ok(r[i], r[j]) {
          if i == 0 {
            assert r[j] == t[j - 1];
            assert t[j - 1] in s[1..];
            var k :| 0 <= k < |s[1..]| && s[1..][k] == r[j];
            assert s[k + 1] == r[j];
          } else {
            assert r[i] == t[i - 1] && r[j] == t[j - 1];
          }
        }
      } else {
        assert r == t;
      }
    }
  }

  /** The elements are pairwise distinct, as in a JavaScript `Set`. */
  predicate Distinct<T(==)>(s: seq<T>) {
    forall i, j :: 0 <= i < j < |s| ==> s[i] != s[j]
  }

  /** `set.add(x)` on a set kept in insertion order. */
  function SetAdd<T(==,!new)>(s: seq<T>, x: T): (r: seq<T>)
    requires Distinct(s)
    ensures Distinct(r) && x in r
    ensures forall y :: y in r <==> y in s || y == x
    ensures |r| == if x in s then |s| else |s| + 1
  {
    if x in s then s else s + [x]
  }

  /** `set.delete(x)` on a set kept in insertion order. */
  function SetDelete<T(==,!new)>(s: seq<T>, x: T): (r: seq<T>)
    requires Distinct(s)
    ensures Distinct(r) && x !in r
    ensures forall y :: y in r <==> y in s && y != x
    ensures |r| == if x in s then |s| - 1 else |s|
  {
    if x !in s then s
    else
      var i :| 0 <= i < |s| && s[i] == x;
      assert s == s[..i] + [x] + s[i + 1..];
      s[..i] + s[i + 1..]
  }

  /** `new Set(array)`: the first occurrence of every element, in order. */
  function Dedupe<T(==,!new)>(s: seq<T>): (r: seq<T>)
    ensures Distinct(r)
    ensures forall y :: y in r <==> y in s
    ensures |r| <= |s|
  {
    if s == [] then []
    else
      var p := Dedupe(s[..|s| - 1]);
      assert s == s[..|s| - 1] + [s[|s| - 1]];
      if s[|s| - 1] in p then p else p + [s[|s| - 1]]
  }

  /** `new Set(Array.from(set))` gives back the same set in the same order. */
  lemma {:induction false} DedupeDistinct<T(!new)>(s: seq<T>)
    requires Distinct(s)
    ensures Dedupe(s) == s
    decreases |s|
  {
    if s != [] {
      var init := s[..|s| - 1];
      DedupeDistinct(init);
      assert s[|s| - 1] !in init;
      assert s == init + [s[|s| - 1]];
    }
  }
}
