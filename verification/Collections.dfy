/** Shared vocabulary: options, filtering and mapping of sequences, and the stable
    sort that the program's `sort_by` and `sort_by_key` calls perform. */
module Collections {

  datatype Option<+T> = None | Some(value: T)

  /** `part` occurs somewhere in `s`. */
  predicate Contains<T(==)>(s: seq<T>, part: seq<T>) {
    exists i :: 0 <= i <= |s| && part <= s[i..]
  }

  /** `part` occurs in `s`, between what comes before and what comes after. */
  ghost predicate Occurs<T(!new)>(part: seq<T>, s: seq<T>) { exists before, after :: s == before + part + after }

  lemma ContainsIsOccurs<T(!new)>(s: seq<T>, part: seq<T>)
    ensures Contains(s, part) <==> Occurs(part, s)
  {
    if Contains(s, part) {
      var i :| 0 <= i <= |s| && part <= s[i..];
      assert s == s[..i] + part + s[i + |part|..];
    }
    if Occurs(part, s) {
      var before, after :| s == before + part + after;
      assert s[|before|..] == part + after;
    }
  }

  // ---------------------------------------------------------------------
  // Filter and map
  // ---------------------------------------------------------------------

  function Filter<T>(p: T -> bool, s: seq<T>): (r: seq<T>)
    ensures |r| <= |s|
    ensures forall x :: x in r ==> x in s && p(x)
    ensures forall x :: x in s && p(x) ==> x in r
  {
    if s == [] then []
    else if p(s[0]) then [s[0]] + Filter(p, s[1..])
    else Filter(p, s[1..])
  }

  function Map<T, U>(f: T -> U, s: seq<T>): (r: seq<U>)
    ensures |r| == |s|
    ensures forall i :: 0 <= i < |s| ==> r[i] == f(s[i])
  {
    if s == [] then [] else [f(s[0])] + Map(f, s[1..])
  }

  lemma {:induction false} FilterConcat<T>(p: T -> bool, a: seq<T>, b: seq<T>)
    ensures Filter(p, a + b) == Filter(p, a) + Filter(p, b)
  {
    if a == [] {
      assert a + b == b;
    } else {
      assert (a + b)[1..] == a[1..] + b;
      FilterConcat(p, a[1..], b);
    }
  }

  lemma MapConcat<T, U>(f: T -> U, a: seq<T>, b: seq<T>)
    ensures Map(f, a + b) == Map(f, a) + Map(f, b)
  {
  }

  lemma {:induction false} FilterAll<T>(p: T -> bool, s: seq<T>)
    requires forall x :: x in s ==> p(x)
    ensures Filter(p, s) == s
  {
    if s != [] {
      FilterAll(p, s[1..]);
    }
  }

  lemma {:induction false} FilterNone<T>(p: T -> bool, s: seq<T>)
    requires forall x :: x in s ==> !p(x)
    ensures Filter(p, s) == []
  {
    if s != [] {
      FilterNone(p, s[1..]);
    }
  }

  /** Filters that agree on the elements of `s` give the same subsequence. */
  lemma {:induction false} FilterExtensional<T>(p: T -> bool, q: T -> bool, s: seq<T>)
    requires forall x :: x in s ==> p(x) == q(x)
    ensures Filter(p, s) == Filter(q, s)
  {
    if s != [] {
      FilterExtensional(p, q, s[1..]);
    }
  }

  /** Filtering by `p` and then by `q` keeps what satisfies both. */
  lemma {:induction false} FilterTwice<T>(p: T -> bool, q: T -> bool, both: T -> bool, s: seq<T>)
    requires forall x :: x in s ==> both(x) == (p(x) && q(x))
    ensures Filter(q, Filter(p, s)) == Filter(both, s)
  {
    if s != [] {
      FilterTwice(p, q, both, s[1..]);
    }
  }

  /** Removing one element from equal bags leaves equal bags. */
  lemma BagRemove<T>(s: seq<T>, t: seq<T>) returns (k: nat)
    requires s != [] && multiset(s) == multiset(t)
    ensures k < |t| && t[k] == s[0] && multiset(s[1..]) == multiset(t[..k] + t[k + 1..])
  {
    assert s[0] in multiset(s);
    assert s[0] in t;
    k :| 0 <= k < |t| && t[k] == s[0];
    assert s == [s[0]] + s[1..];
    assert t == t[..k] + [t[k]] + t[k + 1..];
    assert multiset(s) == multiset{s[0]} + multiset(s[1..]);
    assert multiset(t) == multiset{s[0]} + multiset(t[..k] + t[k + 1..]);
    var a, b := multiset(s[1..]), multiset(t[..k] + t[k + 1..]);
    forall x ensures a[x] == b[x] {
      assert multiset(s)[x] == multiset(t)[x];
    }
  }

  /** The bag of images depends only on the bag of arguments. */
  lemma {:induction false} MapOfBag<T, U>(f: T -> U, s: seq<T>, t: seq<T>)
    requires multiset(s) == multiset(t)
    ensures multiset(Map(f, s)) == multiset(Map(f, t))
    decreases |s|
  {
    if s == [] {
      assert |multiset(t)| == 0;
    } else {
      var k := BagRemove(s, t);
      var front, back := t[..k], t[k + 1..];
      assert t == front + ([t[k]] + back);
      MapOfBag(f, s[1..], front + back);
      MapConcat(f, front, [t[k]] + back);
      MapConcat(f, [t[k]], back);
      MapConcat(f, front, back);
    }
  }

  predicate Distinct<T(==)>(s: seq<T>) {
    forall i, j :: 0 <= i < j < |s| ==> s[i] != s[j]
  }

  lemma {:induction false} DistinctOnce<T>(s: seq<T>, x: T)
    requires Distinct(s)
    ensures multiset(s)[x] <= 1
  {
    if s != [] {
      DistinctOnce(s[1..], x);
      assert s == [s[0]] + s[1..];
      assert s[0] !in s[1..];
    }
  }

  lemma EqualTwice<T>(t: seq<T>, i: nat, j: nat)
    requires i < j < |t| && t[i] == t[j]
    ensures multiset(t)[t[i]] >= 2
  {
    assert t == t[..j] + [t[j]] + t[j + 1..];
    assert t[..j][i] in t[..j];
  }

  /** A permutation of distinct elements has distinct elements. */
  lemma PermutationDistinct<T>(s: seq<T>, t: seq<T>)
    requires Distinct(s) && multiset(s) == multiset(t)
    ensures Distinct(t)
  {
    if i, j :| 0 <= i < j < |t| && t[i] == t[j] {
      EqualTwice(t, i, j);
      DistinctOnce(s, t[i]);
    }
  }

  lemma {:induction false} FilterDistinct<T>(p: T -> bool, s: seq<T>)
    requires Distinct(s)
    ensures Distinct(Filter(p, s))
  {
    if s != [] {
      FilterDistinct(p, s[1..]);
      assert s[0] !in s[1..];
    }
  }

  // ---------------------------------------------------------------------
  // Stable sort
  // ---------------------------------------------------------------------

  ghost predicate TotalPreorder<T(!new)>(le: (T, T) -> bool) {
    && (forall x, y :: le(x, y) || le(y, x))
    && (forall x, y, z :: le(x, y) && le(y, z) ==> le(x, z))
  }

  ghost predicate Sorted<T>(le: (T, T) -> bool, s: seq<T>) {
    forall i, j :: 0 <= i < j < |s| ==> le(s[i], s[j])
  }

  /** Puts `x` before the first element that is not strictly below it. */
  function Insert<T>(le: (T, T) -> bool, x: T, s: seq<T>): (r: seq<T>)
    ensures multiset(r) == multiset{x} + multiset(s)
    ensures |r| == |s| + 1
  {
    if s == [] || le(x, s[0]) then
      assert [x] + s == [x] + s;
      [x] + s
    else
      assert s == [s[0]] + s[1..];
      [s[0]] + Insert(le, x, s[1..])
  }

  /** The stable sort of `s`: sorted, a permutation, ties in input order. */
  function StableSort<T>(le: (T, T) -> bool, s: seq<T>): (r: seq<T>)
    ensures multiset(r) == multiset(s)
    ensures |r| == |s|
  {
    if s == [] then []
    else
      assert s == [s[0]] + s[1..];
      Insert(le, s[0], StableSort(le, s[1..]))
  }

  lemma InsertMembers<T>(le: (T, T) -> bool, x: T, s: seq<T>)
    ensures forall y :: y in Insert(le, x, s) <==> y == x || y in s
  {
  }

  lemma StableSortMembers<T>(le: (T, T) -> bool, s: seq<T>)
    ensures forall y :: y in StableSort(le, s) <==> y in s
  {
    forall y ensures y in StableSort(le, s) <==> y in s {
      assert y in StableSort(le, s) <==> y in multiset(StableSort(le, s));
      assert y in s <==> y in multiset(s);
    }
  }

  lemma {:induction false} InsertSorted<T(!new)>(le: (T, T) -> bool, x: T, s: seq<T>)
    requires TotalPreorder(le) && Sorted(le, s)
    ensures Sorted(le, Insert(le, x, s))
  {
    if s == [] {
    } else if le(x, s[0]) {
      assert forall j :: 0 <= j < |s| ==> le(s[0], s[j]);
    } else {
      InsertSorted(le, x, s[1..]);
      InsertMembers(le, x, s[1..]);
      var rest := Insert(le, x, s[1..]);
      forall j | 0 <= j < |rest| ensures le(s[0], rest[j]) {
        assert rest[j] in rest;
      }
    }
  }

  lemma {:induction false} StableSortSorted<T(!new)>(le: (T, T) -> bool, s: seq<T>)
    requires TotalPreorder(le)
    ensures Sorted(le, StableSort(le, s))
  {
    if s != [] {
      StableSortSorted(le, s[1..]);
      InsertSorted(le, s[0], StableSort(le, s[1..]));
    }
  }

  lemma FilterOfCons<T>(p: T -> bool, x: T, s: seq<T>)
    ensures Filter(p, [x] + s) == if p(x) then [x] + Filter(p, s) else Filter(p, s)
  {
    assert ([x] + s)[1..] == s;
  }

  /** Where `x` goes first it goes first among any of the elements too. */
  lemma InsertFirst<T(!new)>(le: (T, T) -> bool, x: T, s: seq<T>)
    requires forall y :: y in s ==> le(x, y)
    ensures Insert(le, x, s) == [x] + s
  {
    assert s != [] ==> s[0] in s;
  }

  lemma InsertLater<T>(le: (T, T) -> bool, x: T, y: T, s: seq<T>)
    requires !le(x, y)
    ensures Insert(le, x, [y] + s) == [y] + Insert(le, x, s)
  {
    assert ([y] + s)[1..] == s;
  }

  lemma HeadFirst<T(!new)>(le: (T, T) -> bool, x: T, s: seq<T>)
    requires TotalPreorder(le) && Sorted(le, s) && s != []
    ensures Sorted(le, s[1..]) && (le(x, s[0]) ==> forall y :: y in s ==> le(x, y))
  {
    forall y | y in s && le(x, s[0]) ensures le(x, y) {
      var j :| 0 <= j < |s| && s[j] == y;
      assert le(s[0], s[j]) || j == 0;
    }
  }

  lemma {:induction false} InsertFilter<T(!new)>(le: (T, T) -> bool, p: T -> bool, x: T, s: seq<T>)
    requires TotalPreorder(le) && Sorted(le, s)
    ensures Filter(p, Insert(le, x, s)) == if p(x) then Insert(le, x, Filter(p, s)) else Filter(p, s)
  {
    if s == [] {
      FilterOfCons(p, x, []);
    } else {
      hide Insert, Filter, Sorted, TotalPreorder;
      var h, t := s[0], s[1..];
      assert s == [h] + t;
      HeadFirst(le, x, s);
      if le(x, h) {
        InsertFirst(le, x, s);
        InsertFirst(le, x, Filter(p, s));
        FilterOfCons(p, x, s);
      } else {
        InsertFilter(le, p, x, t);
        InsertLater(le, x, h, t);
        InsertLater(le, x, h, Filter(p, t));
        FilterOfCons(p, h, t);
        FilterOfCons(p, h, Insert(le, x, t));
      }
    }
  }

  /** Sorting and filtering commute. Taking for `p` the elements tied with a given
      one, this is stability: ties keep the order they had before the sort. */
  lemma {:induction false} SortFilterCommute<T(!new)>(le: (T, T) -> bool, p: T -> bool, s: seq<T>)
    requires TotalPreorder(le)
    ensures Filter(p, StableSort(le, s)) == StableSort(le, Filter(p, s))
  {
    if s != [] {
      SortFilterCommute(le, p, s[1..]);
      StableSortSorted(le, s[1..]);
      InsertFilter(le, p, s[0], StableSort(le, s[1..]));
    }
  }

  /** A sequence that is already in order is left alone. */
  lemma {:induction false} SortOfSorted<T>(le: (T, T) -> bool, s: seq<T>)
    requires Sorted(le, s)
    ensures StableSort(le, s) == s
  {
    if s != [] {
      SortOfSorted(le, s[1..]);
    }
  }

  function TiedWith<T>(le: (T, T) -> bool, x: T): T -> bool {
    (y: T) => le(x, y) && le(y, x)
  }

  /** Stability: the elements tied with `x` come out in the order they went in. */
  lemma SortStable<T(!new)>(le: (T, T) -> bool, x: T, s: seq<T>)
    requires TotalPreorder(le)
    ensures Filter(TiedWith(le, x), StableSort(le, s)) == Filter(TiedWith(le, x), s)
  {
    SortFilterCommute(le, TiedWith(le, x), s);
    var f := Filter(TiedWith(le, x), s);
    forall i, j | 0 <= i < j < |f| ensures le(f[i], f[j]) {
      assert f[i] in f && f[j] in f;
    }
    SortOfSorted(le, f);
  }

  /** The head of a stable sort is the first of the least elements. */
  lemma SortHead<T(!new)>(le: (T, T) -> bool, s: seq<T>)
    requires TotalPreorder(le) && s != []
    ensures forall x :: x in s ==> le(StableSort(le, s)[0], x)
    ensures exists i :: 0 <= i < |s| && s[i] == StableSort(le, s)[0]
              && forall j :: 0 <= j < i ==> !le(s[j], s[i])
  {
    var r := StableSort(le, s);
    StableSortSorted(le, s);
    StableSortMembers(le, s);
    forall x | x in s ensures le(r[0], x) {
      assert x in r;
      var k :| 0 <= k < |r| && r[k] == x;
    }
    FirstLeast(le, s);
  }

  lemma {:induction false} FirstLeast<T(!new)>(le: (T, T) -> bool, s: seq<T>)
    requires TotalPreorder(le) && s != []
    ensures exists i :: 0 <= i < |s| && s[i] == StableSort(le, s)[0]
              && forall j :: 0 <= j < i ==> !le(s[j], s[i])
  {
    if |s| == 1 {
      assert s[0] == StableSort(le, s)[0];
    } else {
      FirstLeast(le, s[1..]);
      var k :| 0 <= k < |s[1..]| && s[1..][k] == StableSort(le, s[1..])[0]
               && forall j :: 0 <= j < k ==> !le(s[1..][j], s[1..][k]);
      if le(s[0], s[k + 1]) {
        assert s[0] == StableSort(le, s)[0];
      } else {
        assert s[k + 1] == StableSort(le, s)[0];
        forall j | 0 <= j < k + 1 ensures !le(s[j], s[k + 1]) {
          if j > 0 { assert !le(s[1..][j - 1], s[1..][k]); }
        }
      }
    }
  }

  // ---------------------------------------------------------------------
  // Places in the sorted order
  // ---------------------------------------------------------------------

  /** What passes `p` and may stand before `x`, and what passes `p` and must. */
  function NotAfter<T>(le: (T, T) -> bool, p: T -> bool, x: T): T -> bool { (y: T) => p(y) && le(y, x) }

  function Below<T>(le: (T, T) -> bool, p: T -> bool, x: T): T -> bool { (y: T) => p(y) && !le(x, y) }

  /** How many of the elements that pass `p` precede the one at `k`: those strictly below it, and those tied
      with it that come earlier. */
  function Place<T>(le: (T, T) -> bool, p: T -> bool, s: seq<T>, k: nat): nat
    requires k < |s|
  {
    |Filter(NotAfter(le, p, s[k]), s[..k])| + |Filter(Below(le, p, s[k]), s[k + 1..])|
  }

  function Anything<T>(): T -> bool { (y: T) => true }

  /** An inserted element lands behind those strictly below it ... */
  lemma {:induction false} InsertLands<T(!new)>(le: (T, T) -> bool, x: T, s: seq<T>)
    requires TotalPreorder(le) && Sorted(le, s)
    ensures var n := |Filter(Below(le, Anything(), x), s)|;
            n <= |s| && Insert(le, x, s)[n] == x
  {
    if s == [] {
    } else if le(x, s[0]) {
      assert forall j :: 0 < j < |s| ==> le(s[0], s[j]);
      FilterNone(Below(le, Anything(), x), s);
    } else {
      InsertLands(le, x, s[1..]);
    }
  }

  /** ... and moves the others up. */
  lemma {:induction false} InsertMoves<T(!new)>(le: (T, T) -> bool, x: T, s: seq<T>, j: nat)
    requires TotalPreorder(le) && Sorted(le, s) && j < |s|
    ensures Insert(le, x, s)[if le(x, s[j]) then j + 1 else j] == s[j]
  {
    if le(x, s[0]) {
      assert le(s[0], s[j]);
    } else if j > 0 {
      InsertMoves(le, x, s[1..], j - 1);
    }
  }

  lemma SortedCount<T(!new)>(le: (T, T) -> bool, p: T -> bool, x: T, s: seq<T>)
    requires TotalPreorder(le)
    ensures |Filter(Below(le, Anything(), x), StableSort(le, Filter(p, s)))| == |Filter(Below(le, p, x), s)|
  {
    SortFilterCommute(le, Below(le, Anything(), x), Filter(p, s));
    FilterTwice(p, Below(le, Anything(), x), Below(le, p, x), s);
  }

  lemma PlaceOfCons<T>(le: (T, T) -> bool, p: T -> bool, h: T, t: seq<T>, k: nat)
    requires k < |t|
    ensures Place(le, p, [h] + t, k + 1) == Place(le, p, t, k) + if p(h) && le(h, t[k]) then 1 else 0
  {
    var s := [h] + t;
    assert s[..k + 1] == [h] + t[..k] && s[k + 2..] == t[k + 1..];
    assert s[k + 1] == t[k];
    FilterConcat(NotAfter(le, p, t[k]), [h], t[..k]);
    assert [h][1..] == [];
  }

  lemma SortOfCons<T>(le: (T, T) -> bool, p: T -> bool, h: T, t: seq<T>)
    ensures Filter(p, [h] + t) == if p(h) then [h] + Filter(p, t) else Filter(p, t)
    ensures StableSort(le, Filter(p, [h] + t))
            == if p(h) then Insert(le, h, StableSort(le, Filter(p, t))) else StableSort(le, Filter(p, t))
  {
    assert ([h] + t)[1..] == t && ([h] + Filter(p, t))[1..] == Filter(p, t);
  }

  /** Sorting puts every element at its place. */
  lemma {:induction false} SortPlace<T(!new)>(le: (T, T) -> bool, p: T -> bool, s: seq<T>, k: nat)
    requires TotalPreorder(le) && k < |s| && p(s[k])
    ensures Place(le, p, s, k) < |Filter(p, s)| && StableSort(le, Filter(p, s))[Place(le, p, s, k)] == s[k]
  {
    hide *;
    var h, t := s[0], s[1..];
    assert s == [h] + t;
    var sorted := StableSort(le, Filter(p, t));
    StableSortSorted(le, Filter(p, t));
    SortOfCons(le, p, h, t);
    if k == 0 {
      PlaceOfHead(le, p, h, t);
      SortedCount(le, p, h, t);
      InsertLands(le, h, sorted);
    } else {
      SortPlace(le, p, t, k - 1);
      PlaceOfCons(le, p, h, t, k - 1);
      if p(h) {
        InsertMoves(le, h, sorted, Place(le, p, t, k - 1));
      }
    }
  }

  lemma PlaceOfHead<T>(le: (T, T) -> bool, p: T -> bool, h: T, t: seq<T>)
    ensures Place(le, p, [h] + t, 0) == |Filter(Below(le, p, h), t)|
  {
    var s := [h] + t;
    assert s[..0] == [] && s[1..] == t && s[0] == h;
  }

  /** The first after sorting: strictly before every earlier element that passes, and not after any later one. */
  ghost predicate FirstAt<T(!new)>(le: (T, T) -> bool, p: T -> bool, s: seq<T>, k: nat) {
    && k < |s| && p(s[k])
    && (forall j :: 0 <= j < k && p(s[j]) ==> !le(s[j], s[k]))
    && (forall j :: k < j < |s| && p(s[j]) ==> le(s[k], s[j]))
  }

  lemma {:induction false} SortFirst<T(!new)>(le: (T, T) -> bool, p: T -> bool, s: seq<T>) returns (k: nat)
    requires TotalPreorder(le) && Filter(p, s) != []
    ensures FirstAt(le, p, s, k) && StableSort(le, Filter(p, s))[0] == s[k]
  {
    assert s != [];
    hide Filter, StableSort;
    var h, t := s[0], s[1..];
    assert s == [h] + t;
    SortOfCons(le, p, h, t);
    if Filter(p, t) == [] {
      k := 0;
      forall j | 0 < j < |s| ensures !p(s[j]) {
        assert s[j] == t[j - 1];
      }
    } else {
      var i := SortFirst(le, p, t);
      FirstOfCons(le, p, h, t, i);
      k := if p(h) && le(h, t[i]) then 0 else i + 1;
    }
  }

  lemma FirstOfCons<T(!new)>(le: (T, T) -> bool, p: T -> bool, h: T, t: seq<T>, i: nat)
    requires TotalPreorder(le) && FirstAt(le, p, t, i)
    ensures FirstAt(le, p, [h] + t, if p(h) && le(h, t[i]) then 0 else i + 1)
  {
    var s := [h] + t;
    forall j | 0 < j < |s| ensures s[j] == t[j - 1] {
    }
    forall j | 0 <= j < |t| && p(t[j]) && p(h) && le(h, t[i]) ensures le(h, t[j]) {
      assert le(t[i], t[j]);
    }
  }
}
