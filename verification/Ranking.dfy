/** Stable descending order of finite lists under a strict order given as a relation `less`. */
module Ranking {
  import opened Common

  ghost predicate Strict<T(!new)>(less: (T, T) -> bool) {
    && (forall a :: !less(a, a))
    && (forall a, b, c :: less(a, b) && less(b, c) ==> less(a, c))
  }

  predicate Descending<T>(s: seq<T>, less: (T, T) -> bool) {
    forall i, j :: 0 <= i < j < |s| ==> less(s[j], s[i])
  }

  /** Every element of s is comparable with x. */
  predicate Comparable<T>(x: T, s: seq<T>, less: (T, T) -> bool) {
    forall i :: 0 <= i < |s| ==> less(x, s[i]) || less(s[i], x)
  }

  /** How many leading elements rank above x. */
  function Above<T>(x: T, s: seq<T>, less: (T, T) -> bool): (n: nat)
    ensures n <= |s| && (forall i :: 0 <= i < n ==> less(x, s[i])) && (n < |s| ==> !less(x, s[n]))
  {
    if s == [] || !less(x, s[0]) then 0 else 1 + Above(x, s[1..], less)
  }

  function Place<T>(x: T, s: seq<T>, less: (T, T) -> bool): (r: seq<T>)
    ensures |r| == |s| + 1
  {
    InsertAt(x, s, Above(x, s, less))
  }

  function InsertAt<T>(x: T, s: seq<T>, n: nat): (r: seq<T>)
    requires n <= |s|
    ensures |r| == |s| + 1
  {
    s[..n] + [x] + s[n..]
  }

  /** Python's `sorted(…, reverse=True)`: descending, elements of equal rank in their original order. */
  function SortDescending<T>(s: seq<T>, less: (T, T) -> bool): (r: seq<T>)
    ensures |r| == |s|
  {
    if s == [] then [] else Place(s[0], SortDescending(s[1..], less), less)
  }

  function Take<T>(s: seq<T>, k: nat): seq<T> {
    if k <= |s| then s[..k] else s
  }

  function Without<T>(s: seq<T>, i: nat): seq<T>
    requires i < |s|
  {
    s[..i] + s[i + 1..]
  }

  // ----- members -----

  lemma PlaceMembers<T(!new)>(x: T, s: seq<T>, less: (T, T) -> bool)
    ensures forall y :: y in Place(x, s, less) <==> y == x || y in s
  {
    var n := Above(x, s, less);
    assert s == s[..n] + s[n..];
  }

  lemma {:induction false} SortMembers<T(!new)>(s: seq<T>, less: (T, T) -> bool)
    ensures forall y :: y in SortDescending(s, less) <==> y in s
  {
    if s != [] {
      SortMembers(s[1..], less);
      PlaceMembers(s[0], SortDescending(s[1..], less), less);
      assert s == [s[0]] + s[1..];
    }
  }

  // ----- descending lists -----

  lemma PlaceDescending<T(!new)>(x: T, s: seq<T>, less: (T, T) -> bool)
    requires Strict(less) && Descending(s, less) && Comparable(x, s, less)
    ensures Descending(Place(x, s, less), less)
  {
    var n, r := Above(x, s, less), Place(x, s, less);
    forall i, j | 0 <= i < j < |r|
      ensures less(r[j], r[i])
    {
      if i == n && j > n + 1 {
        assert less(s[n], x);
        assert less(s[j - 1], s[n]);
      } else if i == n {
        assert less(s[n], x);
      }
    }
  }

  /** All pairs of a list are comparable. */
  predicate Total<T>(s: seq<T>, less: (T, T) -> bool) {
    forall i, j :: 0 <= i < j < |s| ==> less(s[i], s[j]) || less(s[j], s[i])
  }

  lemma {:induction false} SortIsDescending<T(!new)>(s: seq<T>, less: (T, T) -> bool)
    requires Strict(less) && Total(s, less)
    ensures Descending(SortDescending(s, less), less)
  {
    if s != [] {
      var rest := s[1..];
      assert Total(rest, less) by {
        forall i, j | 0 <= i < j < |rest| ensures less(rest[i], rest[j]) || less(rest[j], rest[i]) {
          assert rest[i] == s[i + 1] && rest[j] == s[j + 1];
        }
      }
      SortIsDescending(rest, less);
      SortMembers(rest, less);
      assert Comparable(s[0], SortDescending(rest, less), less) by {
        var sorted := SortDescending(rest, less);
        forall i | 0 <= i < |rest| ensures less(s[0], sorted[i]) || less(sorted[i], s[0]) {
          var y := sorted[i];
          assert y in rest;
          var k :| 0 <= k < |rest| && rest[k] == y;
          assert s[k + 1] == y;
        }
      }
      PlaceDescending(s[0], SortDescending(rest, less), less);
    }
  }

  /** A descending list is determined by its members. */
  lemma {:induction false} DescendingIsUnique<T(!new)>(a: seq<T>, b: seq<T>, less: (T, T) -> bool)
    requires Strict(less) && Descending(a, less) && Descending(b, less)
    requires forall x :: x in a <==> x in b
    ensures a == b
  {
    Inhabited(a);
    Inhabited(b);
    if a != [] && b != [] {
      SameHead(a, b, less);
      SameHead(b, a, less);
      assert a[0] == b[0];
      forall x
        ensures x in a[1..] <==> x in b[1..]
      {
        TailMembers(a, x, less);
        TailMembers(b, x, less);
      }
      TailDescending(a, less);
      TailDescending(b, less);
      DescendingIsUnique(a[1..], b[1..], less);
      assert a == [a[0]] + a[1..] && b == [b[0]] + b[1..];
    }
  }

  lemma Inhabited<T(!new)>(s: seq<T>)
    ensures s != [] ==> exists x :: x in s
  {
    if s != [] {
      assert s[0] in s;
    }
  }

  lemma TailDescending<T(!new)>(s: seq<T>, less: (T, T) -> bool)
    requires s != [] && Descending(s, less)
    ensures Descending(s[1..], less)
  {
    forall i, j | 0 <= i < j < |s[1..]|
      ensures less(s[1..][j], s[1..][i])
    {
      assert s[1..][i] == s[i + 1] && s[1..][j] == s[j + 1];
    }
  }

  lemma TailMembers<T(!new)>(s: seq<T>, x: T, less: (T, T) -> bool)
    requires s != [] && Strict(less) && Descending(s, less)
    ensures x in s[1..] <==> x in s && x != s[0]
  {
    assert s == [s[0]] + s[1..];
    if x in s[1..] {
      var i :| 0 <= i < |s[1..]| && s[1..][i] == x;
      assert s[i + 1] == x && less(s[i + 1], s[0]);
    }
  }

  lemma SameHead<T(!new)>(a: seq<T>, b: seq<T>, less: (T, T) -> bool)
    requires Strict(less) && Descending(a, less) && Descending(b, less) && a != [] && b != []
    requires forall x :: x in a <==> x in b
    ensures a[0] == b[0] || less(b[0], a[0])
    ensures !less(a[0], b[0])
  {
    assert b[0] in a && a[0] in b;
    var i :| 0 <= i < |a| && a[i] == b[0];
    if i > 0 {
      assert less(a[i], a[0]);
    }
  }

  // ----- with ties: the stable order -----

  /** What does not rank either way ranks alike against everything else. */
  ghost predicate Weak<T(!new)>(less: (T, T) -> bool) {
    && Strict(less)
    && (forall a, b, c :: less(a, c) ==> less(a, b) || less(b, c))
  }

  /** No element ranks above an earlier one. */
  predicate Falling<T>(s: seq<T>, less: (T, T) -> bool) {
    forall i, j :: 0 <= i < j < |s| ==> !less(s[i], s[j])
  }

  lemma WeakStep<T(!new)>(a: T, b: T, c: T, less: (T, T) -> bool)
    requires Weak(less)
    ensures less(a, c) ==> less(a, b) || less(b, c)
  {
  }

  lemma AboveOnly<T(!new)>(x: T, s: seq<T>, j: nat, less: (T, T) -> bool)
    requires Weak(less) && Falling(s, less) && Above(x, s, less) <= j < |s|
    ensures !less(x, s[j])
  {
    var n := Above(x, s, less);
    WeakStep(x, s[n], s[j], less);
  }

  lemma PlaceFalls<T(!new)>(x: T, s: seq<T>, less: (T, T) -> bool)
    requires Weak(less) && Falling(s, less)
    ensures Falling(Place(x, s, less), less)
  {
    var n, r := Above(x, s, less), Place(x, s, less);
    forall i, j | 0 <= i < j < |r|
      ensures !less(r[i], r[j])
    {
      if i == n {
        AboveOnly(x, s, j - 1, less);
      } else if j == n {
        assert less(x, s[i]) && !less(x, x);
      }
    }
  }

  lemma {:induction false} SortFalls<T(!new)>(s: seq<T>, less: (T, T) -> bool)
    requires Weak(less)
    ensures Falling(SortDescending(s, less), less)
  {
    if s != [] {
      SortFalls(s[1..], less);
      PlaceFalls(s[0], SortDescending(s[1..], less), less);
    }
  }

  lemma TailFalls<T(!new)>(s: seq<T>, less: (T, T) -> bool)
    requires s != [] && Falling(s, less)
    ensures Falling(s[1..], less)
  {
    forall i, j | 0 <= i < j < |s[1..]|
      ensures !less(s[1..][i], s[1..][j])
    {
      assert s[1..][i] == s[i + 1] && s[1..][j] == s[j + 1];
    }
  }

  /** Sorting is stable: what does not rise stays as it is. */
  lemma {:induction false} SortOfFalling<T(!new)>(s: seq<T>, less: (T, T) -> bool)
    requires Falling(s, less)
    ensures SortDescending(s, less) == s
  {
    if s != [] {
      TailFalls(s, less);
      SortOfFalling(s[1..], less);
      assert s[1..] != [] ==> s[1..][0] == s[1];
      assert Above(s[0], s[1..], less) == 0;
      assert s == [s[0]] + s[1..];
    }
  }

  lemma {:induction false} FilterFalls<T(!new)>(s: seq<T>, keep: T -> bool, less: (T, T) -> bool)
    requires Falling(s, less)
    ensures Falling(Filter(s, keep), less)
  {
    if s != [] {
      TailFalls(s, less);
      FilterFalls(s[1..], keep, less);
      FilterMembers(s[1..], keep);
      var rest := Filter(s[1..], keep);
      forall j | 0 <= j < |rest|
        ensures !less(s[0], rest[j])
      {
        assert rest[j] in s[1..];
        var k :| 0 <= k < |s[1..]| && s[1..][k] == rest[j];
        assert s[k + 1] == rest[j];
      }
    }
  }

  lemma PlaceCons<T(!new)>(x: T, s: seq<T>, less: (T, T) -> bool)
    requires s != [] && less(x, s[0])
    ensures Place(x, s, less) == [s[0]] + Place(x, s[1..], less)
  {
    assert s == [s[0]] + s[1..];
  }

  lemma PlaceFirst<T(!new)>(x: T, s: seq<T>, less: (T, T) -> bool)
    requires forall i :: 0 <= i < |s| ==> !less(x, s[i])
    ensures Place(x, s, less) == [x] + s
  {
  }

  /** Placing and then filtering is filtering and then placing. */
  lemma {:induction false} PlaceFilter<T(!new)>(x: T, s: seq<T>, keep: T -> bool, less: (T, T) -> bool)
    requires Weak(less) && Falling(s, less)
    ensures Filter(Place(x, s, less), keep)
            == if keep(x) then Place(x, Filter(s, keep), less) else Filter(s, keep)
    decreases |s|
  {
    if s == [] || !less(x, s[0]) {
      forall i | 0 <= i < |s| ensures !less(x, s[i]) {
        AboveOnly(x, s, i, less);
      }
      PlaceFirst(x, s, less);
      FilterCons(x, s, keep);
      FilterMembers(s, keep);
      FilteredNotAbove(x, s, keep, less);
      PlaceFirst(x, Filter(s, keep), less);
    } else {
      TailFalls(s, less);
      PlaceFilter(x, s[1..], keep, less);
      PlaceCons(x, s, less);
      FilterCons(s[0], Place(x, s[1..], less), keep);
      if keep(x) && keep(s[0]) {
        var kept := Filter(s, keep);
        assert kept[0] == s[0] && kept[1..] == Filter(s[1..], keep);
        PlaceCons(x, kept, less);
      }
    }
  }

  lemma FilteredNotAbove<T(!new)>(x: T, s: seq<T>, keep: T -> bool, less: (T, T) -> bool)
    requires forall i :: 0 <= i < |s| ==> !less(x, s[i])
    ensures forall i :: 0 <= i < |Filter(s, keep)| ==> !less(x, Filter(s, keep)[i])
  {
    FilterMembers(s, keep);
    forall i | 0 <= i < |Filter(s, keep)|
      ensures !less(x, Filter(s, keep)[i])
    {
      assert Filter(s, keep)[i] in s;
    }
  }

  /** Sorting and then filtering is filtering and then sorting. */
  lemma {:induction false} SortFilter<T(!new)>(s: seq<T>, keep: T -> bool, less: (T, T) -> bool)
    requires Weak(less)
    ensures Filter(SortDescending(s, less), keep) == SortDescending(Filter(s, keep), less)
    decreases |s|
  {
    if s != [] {
      SortFilter(s[1..], keep, less);
      SortFalls(s[1..], less);
      PlaceFilter(s[0], SortDescending(s[1..], less), keep, less);
      SortCons(s[0], Filter(s[1..], keep), less);
    }
  }

  lemma SortCons<T(!new)>(x: T, s: seq<T>, less: (T, T) -> bool)
    ensures SortDescending([x] + s, less) == Place(x, SortDescending(s, less), less)
  {
    assert ([x] + s)[1..] == s;
  }

  // ----- truncation -----

  lemma {:induction false} AboveTake<T(!new)>(x: T, s: seq<T>, k: nat, less: (T, T) -> bool)
    requires k <= |s|
    ensures Above(x, s[..k], less) == if Above(x, s, less) <= k then Above(x, s, less) else k
    decreases |s|
  {
    if s != [] && k > 0 && less(x, s[0]) {
      AboveTake(x, s[1..], k - 1, less);
      assert s[..k][1..] == s[1..][..k - 1];
    }
  }

  lemma CutInserted<T(!new)>(x: T, s: seq<T>, n: nat, k: nat)
    requires n <= |s|
    ensures n < k <= |s| ==> Take(InsertAt(x, s, n), k) == InsertAt(x, s[..k - 1], n)
    ensures k <= n ==> Take(InsertAt(x, s, n), k) == s[..k]
  {
  }

  /** Placing and then cutting needs only the kept part. */
  lemma PlaceTake<T(!new)>(x: T, s: seq<T>, k: nat, less: (T, T) -> bool)
    requires k <= |s|
    ensures Take(Place(x, s, less), k) == Take(Place(x, s[..k], less), k)
  {
    hide Above;
    AboveTake(x, s, k, less);
    var n := Above(x, s, less);
    CutInserted(x, s, n, k);
    CutInserted(x, s[..k], if n <= k then n else k, k);
    assert n < k ==> s[..k][..k - 1] == s[..k - 1];
    assert s[..k][..k] == s[..k];
  }

  /** Where all kept elements rank above, the placed one comes last. */
  lemma PlaceBelow<T(!new)>(x: T, s: seq<T>, less: (T, T) -> bool)
    requires forall i :: 0 <= i < |s| ==> less(x, s[i])
    ensures Place(x, s, less) == s + [x]
  {
    assert Above(x, s, less) == |s|;
  }

  lemma AboveImproved<T(!new)>(x: T, s: seq<T>, i: nat, less: (T, T) -> bool)
    requires Strict(less) && Descending(s, less) && i < |s| && less(s[i], x)
    ensures Above(x, Without(s, i), less) <= i
  {
    var rest := Without(s, i);
    assert i < |rest| ==> rest[i] == s[i + 1] && less(s[i + 1], s[i]);
  }

  /** Moving an element up to a better place stays inside the kept part. */
  lemma MoveTake<T(!new)>(x: T, s: seq<T>, i: nat, k: nat, less: (T, T) -> bool)
    requires Strict(less) && Descending(s, less) && i < k <= |s| && less(s[i], x)
    ensures Take(Place(x, Without(s, i), less), k) == Place(x, Without(s[..k], i), less)
  {
    AboveImproved(x, s, i, less);
    if k == |s| {
      assert s[..k] == s;
      var r := Place(x, Without(s, i), less);
      assert r[..k] == r;
    } else {
      CutMoved(x, Without(s, i), k, less);
      assert Without(s[..k], i) == Without(s, i)[..k - 1];
    }
  }

  lemma PlaceIsInsert<T(!new)>(x: T, s: seq<T>, n: nat, less: (T, T) -> bool)
    requires n == Above(x, s, less)
    ensures n <= |s| && Place(x, s, less) == InsertAt(x, s, n)
  {
  }

  lemma CutMoved<T(!new)>(x: T, rest: seq<T>, k: nat, less: (T, T) -> bool)
    requires Above(x, rest, less) < k <= |rest|
    ensures Take(Place(x, rest, less), k) == Place(x, rest[..k - 1], less)
  {
    hide Above, Place;
    var n, kept := Above(x, rest, less), rest[..k - 1];
    AboveTake(x, rest, k - 1, less);
    PlaceIsInsert(x, kept, n, less);
    PlaceIsInsert(x, rest, n, less);
    CutInserted(x, rest, n, k);
  }
}
