/** Filtering, truncating and stably sorting sequences, and how the three commute. */
module Sequences {

  function Filter<T>(keep: T -> bool, s: seq<T>): seq<T> {
    if s == [] then []
    else (if keep(s[0]) then [s[0]] else []) + Filter(keep, s[1..])
  }

  /** What `f` makes of the elements, in order. */
  function Gather<S, T>(f: S -> seq<T>, s: seq<S>): seq<T> {
    if s == [] then [] else Gather(f, s[..|s| - 1]) + f(s[|s| - 1])
  }

  lemma GatherSnoc<S, T>(f: S -> seq<T>, s: seq<S>, i: nat)
    requires i < |s|
    ensures Gather(f, s[..i + 1]) == Gather(f, s[..i]) + f(s[i])
  {
    assert s[..i + 1][..i] == s[..i];
  }

  lemma {:induction false} GatherMember<S, T>(f: S -> seq<T>, s: seq<S>, x: T)
    ensures x in Gather(f, s) <==> exists i :: 0 <= i < |s| && x in f(s[i])
    decreases |s|
  {
    if s != [] {
      var k := |s| - 1;
      GatherMember(f, s[..k], x);
      if x in Gather(f, s[..k]) {
        var i :| 0 <= i < k && x in f(s[..k][i]);
        assert x in f(s[i]);
      }
      forall i | 0 <= i < k && x in f(s[i]) ensures x in Gather(f, s[..k]) {
        assert x in f(s[..k][i]);
      }
    }
  }

  /** Rearranging the elements does not change what is gathered from them. */
  lemma GatherRearranged<S, T>(f: S -> seq<T>, a: seq<S>, b: seq<S>, x: T)
    requires multiset(a) == multiset(b) && x in Gather(f, a)
    ensures x in Gather(f, b)
  {
    GatherMember(f, a, x);
    var i :| 0 <= i < |a| && x in f(a[i]);
    assert a[i] in multiset(b);
    var j :| 0 <= j < |b| && b[j] == a[i];
    GatherMember(f, b, x);
  }

  /** The source's truncation: a limit that is not positive keeps everything. */
  function Limit<T>(n: int, s: seq<T>): seq<T> {
    if n > 0 && |s| > n then s[..n] else s
  }

  // ---------------------------------------------------------- stable sort

  /** `x` goes before the first element it does not follow. */
  function Insert<T>(less: (T, T) -> bool, x: T, s: seq<T>): seq<T> {
    if s == [] || !less(s[0], x) then [x] + s else [s[0]] + Insert(less, x, s[1..])
  }

  /** The stable sort: equal elements keep their order. */
  function Sort<T>(less: (T, T) -> bool, s: seq<T>): seq<T> {
    if s == [] then [] else Insert(less, s[0], Sort(less, s[1..]))
  }

  /** A strict weak order: what every comparison function of the source is. */
  ghost predicate WeakOrder<T(!new)>(less: (T, T) -> bool) {
    && (forall a, b :: less(a, b) ==> !less(b, a))
    && (forall a, b, c :: less(a, c) ==> less(a, b) || less(b, c))
  }

  ghost predicate SortedBy<T>(less: (T, T) -> bool, s: seq<T>) {
    forall i, j :: 0 <= i < j < |s| ==> !less(s[j], s[i])
  }

  lemma {:induction false} InsertSorted<T(!new)>(less: (T, T) -> bool, x: T, s: seq<T>)
    requires WeakOrder(less) && SortedBy(less, s)
    ensures SortedBy(less, Insert(less, x, s))
    ensures multiset(Insert(less, x, s)) == multiset{x} + multiset(s)
    decreases |s|
  {
    var r := Insert(less, x, s);
    if s == [] {
    } else if !less(s[0], x) {
      forall j | 0 < j < |r| ensures !less(r[j], x) {
        assert r[j] == s[j - 1];
      }
      assert multiset([x] + s) == multiset{x} + multiset(s);
    } else {
      var t := Insert(less, x, s[1..]);
      InsertSorted(less, x, s[1..]);
      assert s == [s[0]] + s[1..];
      forall j | 0 < j < |r| ensures !less(r[j], s[0]) {
        assert r[j] == t[j - 1] && t[j - 1] in multiset(t);
      }
    }
  }

  lemma {:induction false} SortSorts<T(!new)>(less: (T, T) -> bool, s: seq<T>)
    requires WeakOrder(less)
    ensures SortedBy(less, Sort(less, s))
    ensures multiset(Sort(less, s)) == multiset(s)
    decreases |s|
  {
    if s != [] {
      SortSorts(less, s[1..]);
      InsertSorted(less, s[0], Sort(less, s[1..]));
      assert s == [s[0]] + s[1..];
    }
  }

  /** A sorted sequence is left alone. */
  lemma {:induction false} SortIdentity<T>(less: (T, T) -> bool, s: seq<T>)
    requires SortedBy(less, s)
    ensures Sort(less, s) == s
    decreases |s|
  {
    if s != [] {
      SortIdentity(less, s[1..]);
      assert s == [s[0]] + s[1..];
      assert |s| > 1 ==> !less(s[1], s[0]);
    }
  }

  // --------------------------------------------------- filters commute

  lemma {:induction false} FilterMember<T>(keep: T -> bool, s: seq<T>)
    ensures forall x :: x in Filter(keep, s) ==> x in s && keep(x)
    ensures forall x :: x in s && keep(x) ==> x in Filter(keep, s)
    ensures |Filter(keep, s)| <= |s|
    decreases |s|
  {
    if s != [] {
      FilterMember(keep, s[1..]);
      assert s == [s[0]] + s[1..];
    }
  }

  lemma FilterCons<T>(keep: T -> bool, x: T, s: seq<T>)
    ensures Filter(keep, [x] + s) == if keep(x) then [x] + Filter(keep, s) else Filter(keep, s)
  {
    assert ([x] + s)[1..] == s;
  }

  lemma {:induction false} FilterAppend<T>(keep: T -> bool, a: seq<T>, b: seq<T>)
    ensures Filter(keep, a + b) == Filter(keep, a) + Filter(keep, b)
    decreases |a|
  {
    if a == [] {
      assert a + b == b;
    } else {
      var head := if keep(a[0]) then [a[0]] else [];
      FilterAppend(keep, a[1..], b);
      assert (a + b)[0] == a[0] && (a + b)[1..] == a[1..] + b;
      assert Filter(keep, a + b) == head + Filter(keep, a[1..] + b);
      assert Filter(keep, a) == head + Filter(keep, a[1..]);
    }
  }

  lemma FilterPrefix<T>(keep: T -> bool, a: seq<T>, b: seq<T>)
    requires a <= b
    ensures Filter(keep, a) <= Filter(keep, b)
  {
    FilterAppend(keep, a, b[|a|..]);
    assert a + b[|a|..] == b;
  }

  lemma {:induction false} FiltersCommute<T>(p: T -> bool, q: T -> bool, s: seq<T>)
    ensures Filter(p, Filter(q, s)) == Filter(q, Filter(p, s))
    decreases |s|
  {
    if s != [] {
      FiltersCommute(p, q, s[1..]);
      FilterAppend(p, if q(s[0]) then [s[0]] else [], Filter(q, s[1..]));
      FilterAppend(q, if p(s[0]) then [s[0]] else [], Filter(p, s[1..]));
    }
  }

  lemma {:induction false} FilterBoth<T>(p: T -> bool, q: T -> bool, both: T -> bool, s: seq<T>)
    requires forall x :: x in s ==> both(x) == (p(x) && q(x))
    ensures Filter(both, s) == Filter(q, Filter(p, s))
    decreases |s|
  {
    if s != [] {
      assert s[0] in s;
      FilterBoth(p, q, both, s[1..]);
      FilterAppend(q, if p(s[0]) then [s[0]] else [], Filter(p, s[1..]));
    }
  }

  lemma LimitPrefix<T>(n: int, a: seq<T>, b: seq<T>)
    requires a <= b
    ensures Limit(n, a) <= Limit(n, b)
  {
  }

  /** Filtering a truncated sequence keeps a prefix of truncating the filtered one. */
  lemma FilterLimit<T>(keep: T -> bool, n: int, s: seq<T>)
    ensures Filter(keep, Limit(n, s)) <= Limit(n, Filter(keep, s))
    ensures Limit(n, s) == s ==> Filter(keep, Limit(n, s)) == Limit(n, Filter(keep, s))
  {
    FilterPrefix(keep, Limit(n, s), s);
    FilterMember(keep, Limit(n, s));
    FilterMember(keep, s);
  }

  lemma {:induction false} FilterSorted<T>(less: (T, T) -> bool, keep: T -> bool, s: seq<T>)
    requires SortedBy(less, s)
    ensures SortedBy(less, Filter(keep, s))
    decreases |s|
  {
    if s != [] {
      var rest := Filter(keep, s[1..]);
      FilterSorted(less, keep, s[1..]);
      FilterMember(keep, s[1..]);
      forall j | 0 <= j < |rest| ensures !less(rest[j], s[0]) {
        assert rest[j] in Filter(keep, s[1..]);
        assert rest[j] in s[1..];
        var i :| 0 < i < |s| && s[i] == rest[j];
      }
    }
  }

  lemma {:induction false} InsertFilter<T(!new)>(less: (T, T) -> bool, keep: T -> bool, x: T, s: seq<T>)
    requires WeakOrder(less) && SortedBy(less, s)
    ensures Filter(keep, Insert(less, x, s)) ==
            if keep(x) then Insert(less, x, Filter(keep, s)) else Filter(keep, s)
    decreases |s|
  {
    if s == [] {
    } else if !less(s[0], x) {
      assert ([x] + s)[1..] == s;
      FilterMember(keep, s);
      var f := Filter(keep, s);
      if f != [] {
        assert f[0] in s;
        var i :| 0 <= i < |s| && s[i] == f[0];
        assert !less(f[0], x);
      }
    } else {
      InsertFilter(less, keep, x, s[1..]);
      FilterCons(keep, s[0], Insert(less, x, s[1..]));
      FilterCons(keep, s[0], s[1..]);
      assert s == [s[0]] + s[1..];
      if keep(s[0]) {
        assert ([s[0]] + Filter(keep, s[1..]))[1..] == Filter(keep, s[1..]);
      }
    }
  }

  /** The sort is stable: it commutes with every filter. */
  lemma {:induction false} SortFilter<T(!new)>(less: (T, T) -> bool, keep: T -> bool, s: seq<T>)
    requires WeakOrder(less)
    ensures Filter(keep, Sort(less, s)) == Sort(less, Filter(keep, s))
    decreases |s|
  {
    if s != [] {
      SortFilter(less, keep, s[1..]);
      SortSorts(less, s[1..]);
      InsertFilter(less, keep, s[0], Sort(less, s[1..]));
      FilterCons(keep, s[0], s[1..]);
      assert s == [s[0]] + s[1..];
      if keep(s[0]) {
        assert ([s[0]] + Filter(keep, s[1..]))[1..] == Filter(keep, s[1..]);
      }
    }
  }

  // ----------------------------------------------- one sorted arrangement

  /** Under an order that separates any two different elements, sorted arrangements start alike. */
  lemma SortedHeads<T(!new)>(less: (T, T) -> bool, a: seq<T>, b: seq<T>)
    requires WeakOrder(less) && SortedBy(less, a) && SortedBy(less, b)
    requires multiset(a) == multiset(b) && a != [] && b != []
    requires forall x, y :: x in a && y in a && x != y ==> less(x, y) || less(y, x)
    ensures a[0] == b[0]
  {
    assert a[0] in multiset(b) && b[0] in multiset(a);
    var i :| 0 <= i < |b| && b[i] == a[0];
    var j :| 0 <= j < |a| && a[j] == b[0];
    assert !less(b[i], b[0]) && !less(a[j], a[0]);
  }

  lemma TailsRearranged<T>(a: seq<T>, b: seq<T>)
    requires multiset(a) == multiset(b) && a != [] && b != [] && a[0] == b[0]
    ensures multiset(a[1..]) == multiset(b[1..])
  {
    assert a == [a[0]] + a[1..] && b == [a[0]] + b[1..];
    assert multiset(a[1..]) == multiset(a) - multiset{a[0]};
    assert multiset(b[1..]) == multiset(b) - multiset{a[0]};
  }

  /** The sorted arrangement is unique. */
  lemma {:induction false} SortedUnique<T(!new)>(less: (T, T) -> bool, a: seq<T>, b: seq<T>)
    requires WeakOrder(less) && SortedBy(less, a) && SortedBy(less, b)
    requires multiset(a) == multiset(b)
    requires forall x, y :: x in a && y in a && x != y ==> less(x, y) || less(y, x)
    ensures a == b
    decreases |a|
  {
    assert |multiset(a)| == |a| && |multiset(b)| == |b|;
    if a != [] {
      SortedHeads(less, a, b);
      TailsRearranged(a, b);
      assert forall x :: x in a[1..] ==> x in a;
      SortedUnique(less, a[1..], b[1..]);
    }
  }

  lemma {:induction false} FilterMultiset<T>(keep: T -> bool, s: seq<T>, x: T)
    ensures multiset(Filter(keep, s))[x] == if keep(x) then multiset(s)[x] else 0
    decreases |s|
  {
    if s != [] {
      assert s == [s[0]] + s[1..];
      FilterMultiset(keep, s[1..], x);
    }
  }

  lemma FilterRearranged<T(!new)>(keep: T -> bool, a: seq<T>, b: seq<T>)
    requires multiset(a) == multiset(b)
    ensures multiset(Filter(keep, a)) == multiset(Filter(keep, b))
  {
    forall x: T ensures multiset(Filter(keep, a))[x] == multiset(Filter(keep, b))[x] {
      FilterMultiset(keep, a, x);
      FilterMultiset(keep, b, x);
    }
  }

  // ------------------------------------------------------- no duplicates

  ghost predicate Distinct<T>(s: seq<T>) {
    forall i, j :: 0 <= i < j < |s| ==> s[i] != s[j]
  }

  lemma {:induction false} DistinctCount<T>(s: seq<T>, x: T)
    requires Distinct(s)
    ensures multiset(s)[x] <= 1
    decreases |s|
  {
    if s != [] {
      assert s == [s[0]] + s[1..];
      DistinctCount(s[1..], x);
      assert s[0] !in s[1..];
    }
  }

  /** Part of a sequence without duplicates has none either. */
  lemma DistinctPart<T>(a: seq<T>, b: seq<T>)
    requires Distinct(a) && multiset(b) <= multiset(a)
    ensures Distinct(b)
  {
    forall i, j | 0 <= i < j < |b| ensures b[i] != b[j] {
      DistinctCount(a, b[i]);
      assert b == b[..j] + b[j..];
      assert b[i] in b[..j] && b[j] in b[j..];
    }
  }

  // --------------------------------------------------- ranks and top lists

  /** `less`, with ties broken by `tie`. */
  function Lex<T>(less: (T, T) -> bool, tie: (T, T) -> bool): (T, T) -> bool {
    (a, b) => less(a, b) || (!less(b, a) && tie(a, b))
  }

  lemma LexWeak<T(!new)>(less: (T, T) -> bool, tie: (T, T) -> bool)
    requires WeakOrder(less) && WeakOrder(tie)
    ensures WeakOrder(Lex(less, tie))
  {
    var lex := Lex(less, tie);
    forall a, b, c | lex(a, c) ensures lex(a, b) || lex(b, c) {
      assert less(a, c) ==> less(a, b) || less(b, c);
      assert tie(a, c) ==> tie(a, b) || tie(b, c);
      assert less(b, a) ==> less(b, c) || less(c, a);
      assert less(c, b) ==> less(c, a) || less(a, b);
    }
  }

  lemma {:induction false} InsertLex<T>(less: (T, T) -> bool, tie: (T, T) -> bool, x: T, s: seq<T>)
    requires forall y :: y in s ==> !tie(y, x)
    ensures Insert(less, x, s) == Insert(Lex(less, tie), x, s)
    decreases |s|
  {
    if s != [] {
      assert s[0] in s;
      InsertLex(less, tie, x, s[1..]);
    }
  }

  lemma {:induction false} SortMember<T(!new)>(less: (T, T) -> bool, s: seq<T>, x: T)
    requires WeakOrder(less)
    ensures x in Sort(less, s) <==> x in s
  {
    SortSorts(less, s);
    assert x in Sort(less, s) <==> x in multiset(Sort(less, s));
    assert x in s <==> x in multiset(s);
  }

  lemma SortSize<T(!new)>(less: (T, T) -> bool, s: seq<T>)
    requires WeakOrder(less)
    ensures |Sort(less, s)| == |s|
  {
    SortSorts(less, s);
    assert |multiset(Sort(less, s))| == |multiset(s)|;
  }

  /** Stably sorting a list that is sorted by `tie` breaks ties by `tie`. */
  lemma {:induction false} StableSort<T(!new)>(less: (T, T) -> bool, tie: (T, T) -> bool, s: seq<T>)
    requires WeakOrder(less) && SortedBy(tie, s)
    ensures Sort(less, s) == Sort(Lex(less, tie), s)
    decreases |s|
  {
    if s != [] {
      StableSort(less, tie, s[1..]);
      forall y | y in Sort(less, s[1..]) ensures !tie(y, s[0]) {
        SortMember(less, s[1..], y);
        var j :| 1 <= j < |s| && s[j] == y;
      }
      InsertLex(less, tie, s[0], Sort(less, s[1..]));
    }
  }

  function Below<T>(less: (T, T) -> bool, x: T): T -> bool {
    y => less(y, x)
  }

  /** How many elements come before `x`. */
  function Rank<T>(less: (T, T) -> bool, s: seq<T>, x: T): nat {
    |Filter(Below(less, x), s)|
  }

  /** Different elements are ordered one way or the other. */
  ghost predicate Separates<T(!new)>(less: (T, T) -> bool, s: seq<T>) {
    forall x, y :: x in s && y in s && x != y ==> less(x, y) || less(y, x)
  }

  lemma {:induction false} FilterNone<T>(keep: T -> bool, s: seq<T>)
    requires forall x :: x in s ==> !keep(x)
    ensures Filter(keep, s) == []
    decreases |s|
  {
    if s != [] {
      assert s[0] in s;
      FilterNone(keep, s[1..]);
    }
  }

  lemma {:induction false} FilterAll<T>(keep: T -> bool, s: seq<T>)
    requires forall x :: x in s ==> keep(x)
    ensures Filter(keep, s) == s
    decreases |s|
  {
    if s != [] {
      assert s[0] in s;
      FilterAll(keep, s[1..]);
    }
  }

  lemma BeforePosition<T(!new)>(less: (T, T) -> bool, t: seq<T>, i: nat, j: nat)
    requires WeakOrder(less) && SortedBy(less, t) && Distinct(t) && Separates(less, t) && i < |t| && j < |t|
    ensures less(t[i], t[j]) <==> i < j
  {
    assert t[i] in t && t[j] in t;
    if i < j {
      assert !less(t[j], t[i]);
    }
  }

  /** In a sorted list of different elements the rank is the position. */
  lemma RankIsPosition<T(!new)>(less: (T, T) -> bool, t: seq<T>, j: nat)
    requires WeakOrder(less) && SortedBy(less, t) && Distinct(t) && Separates(less, t) && j < |t|
    ensures Rank(less, t, t[j]) == j
  {
    var below := Below(less, t[j]);
    forall i | 0 <= i < |t| ensures below(t[i]) <==> i < j {
      BeforePosition(less, t, i, j);
    }
    FilterAll(below, t[..j]);
    FilterNone(below, t[j..]);
    FilterAppend(below, t[..j], t[j..]);
    assert t[..j] + t[j..] == t;
  }

  lemma RankRearranged<T(!new)>(less: (T, T) -> bool, a: seq<T>, b: seq<T>, x: T)
    requires multiset(a) == multiset(b)
    ensures Rank(less, a, x) == Rank(less, b, x)
  {
    FilterRearranged(Below(less, x), a, b);
    assert |multiset(Filter(Below(less, x), a))| == |multiset(Filter(Below(less, x), b))|;
  }

  lemma TwoLimits<T>(m: int, n: int, t: seq<T>)
    ensures Limit(m, Limit(n, t)) == Limit(if n <= 0 || 0 < m <= n then m else n, t)
  {
  }

  /** Lists of different elements with the same members are rearrangements of each other. */
  lemma SameMembers<T(!new)>(a: seq<T>, b: seq<T>)
    requires Distinct(a) && Distinct(b) && forall x :: x in a <==> x in b
    ensures multiset(a) == multiset(b)
  {
    forall x: T ensures multiset(a)[x] == multiset(b)[x] {
      DistinctCount(a, x);
      DistinctCount(b, x);
      assert x in a <==> multiset(a)[x] > 0;
      assert x in b <==> multiset(b)[x] > 0;
    }
  }

  lemma FilterDistinct<T(!new)>(keep: T -> bool, s: seq<T>)
    requires Distinct(s)
    ensures Distinct(Filter(keep, s))
  {
    forall x: T ensures multiset(Filter(keep, s))[x] <= multiset(s)[x] {
      FilterMultiset(keep, s, x);
    }
    assert multiset(Filter(keep, s)) <= multiset(s);
    DistinctPart(s, Filter(keep, s));
  }

  /** Alone, an element comes first. */
  lemma RankAlone<T(!new)>(less: (T, T) -> bool, keep: T -> bool, x: T)
    requires WeakOrder(less)
    ensures Rank(less, Filter(keep, [x]), x) == 0
  {
    FilterMember(keep, [x]);
    assert !less(x, x);
    FilterNone(Below(less, x), Filter(keep, [x]));
  }

  /** With a kept element before it, `x` is not first. */
  lemma RankAbove<T>(less: (T, T) -> bool, keep: T -> bool, s: seq<T>, y: T, x: T)
    requires y in s && keep(y) && less(y, x)
    ensures Rank(less, Filter(keep, s), x) >= 1
  {
    FilterMember(keep, s);
    FilterMember(Below(less, x), Filter(keep, s));
    assert y in Filter(Below(less, x), Filter(keep, s));
  }

  predicate Fits(limit: int, rank: nat) {
    limit > 0 ==> rank < limit
  }

  /** An element makes it into the truncated sorted list exactly when few enough elements come before it. */
  lemma TopByRank<T(!new)>(less: (T, T) -> bool, s: seq<T>, n: int, x: T)
    requires WeakOrder(less) && Distinct(s) && Separates(less, s)
    ensures x in Limit(n, Sort(less, s)) <==> x in s && Fits(n, Rank(less, s, x))
  {
    var t := Sort(less, s);
    SortSorts(less, s);
    DistinctPart(s, t);
    forall y ensures y in t <==> y in s {
      SortMember(less, s, y);
    }
    RankRearranged(less, s, t, x);
    if x in t {
      var j :| 0 <= j < |t| && t[j] == x;
      RankIsPosition(less, t, j);
      if n > 0 && |t| > n && x in t[..n] {
        var i :| 0 <= i < n && t[i] == x;
      }
    }
  }
}
