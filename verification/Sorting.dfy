/** Python's `sorted`: a stable sort, shared by every ordered output of the resolver. */
module Sorting {
  import opened Text

  ghost predicate TotalPreorder<T(!new)>(le: (T, T) -> bool) {
    && (forall a, b :: le(a, b) || le(b, a))
    && (forall a, b, c :: le(a, b) && le(b, c) ==> le(a, c))
  }

  ghost predicate SortedBy<T>(le: (T, T) -> bool, s: seq<T>) {
    forall i, j :: 0 <= i < j < |s| ==> le(s[i], s[j])
  }

  function Insert<T>(le: (T, T) -> bool, x: T, s: seq<T>): seq<T> {
    if s == [] || le(x, s[0]) then [x] + s else [s[0]] + Insert(le, x, s[1..])
  }

  /** `sorted(s)`; equal elements keep their order. */
  function StableSort<T>(le: (T, T) -> bool, s: seq<T>): seq<T> {
    if s == [] then [] else Insert(le, s[0], StableSort(le, s[1..]))
  }

  lemma {:induction false} InsertKeeps<T>(le: (T, T) -> bool, x: T, s: seq<T>)
    ensures multiset(Insert(le, x, s)) == multiset{x} + multiset(s)
  {
    if s != [] && !le(x, s[0]) {
      InsertKeeps(le, x, s[1..]);
      assert s == [s[0]] + s[1..];
    }
  }

  lemma {:induction false} SortKeeps<T>(le: (T, T) -> bool, s: seq<T>)
    ensures multiset(StableSort(le, s)) == multiset(s)
  {
    if s == [] {
    } else {
      SortKeeps(le, s[1..]);
      InsertKeeps(le, s[0], StableSort(le, s[1..]));
      assert s == [s[0]] + s[1..];
    }
  }

  lemma {:induction false} SortMembers<T>(le: (T, T) -> bool, s: seq<T>, x: T)
    ensures x in StableSort(le, s) <==> x in s
  {
    SortKeeps(le, s);
    assert x in multiset(StableSort(le, s)) <==> x in multiset(s);
  }

  lemma {:induction false} InsertSorts<T(!new)>(le: (T, T) -> bool, x: T, s: seq<T>)
    requires TotalPreorder(le) && SortedBy(le, s)
    ensures SortedBy(le, Insert(le, x, s))
  {
    if s == [] {
    } else if le(x, s[0]) {
      forall j | 0 <= j < |s| ensures le(x, s[j]) {
        assert j == 0 || le(s[0], s[j]);
      }
    } else {
      var t := Insert(le, x, s[1..]);
      InsertSorts(le, x, s[1..]);
      InsertKeeps(le, x, s[1..]);
      forall j | 0 <= j < |t| ensures le(s[0], t[j]) {
        assert t[j] in multiset(t);
        assert t[j] == x || t[j] in s[1..];
      }
    }
  }

  lemma {:induction false} SortSorts<T(!new)>(le: (T, T) -> bool, s: seq<T>)
    requires TotalPreorder(le)
    ensures SortedBy(le, StableSort(le, s))
  {
    if s == [] {
    } else {
      SortSorts(le, s[1..]);
      InsertSorts(le, s[0], StableSort(le, s[1..]));
    }
  }

  function Filter<T>(keep: T -> bool, s: seq<T>): seq<T> {
    if s == [] then [] else (if keep(s[0]) then [s[0]] else []) + Filter(keep, s[1..])
  }

  lemma {:induction false} FilterAppend<T>(keep: T -> bool, a: seq<T>, b: seq<T>)
    ensures Filter(keep, a + b) == Filter(keep, a) + Filter(keep, b)
  {
    if a == [] {
      assert a + b == b;
    } else {
      assert (a + b)[1..] == a[1..] + b;
      FilterAppend(keep, a[1..], b);
      Concat3(if keep(a[0]) then [a[0]] else [], Filter(keep, a[1..]), Filter(keep, b));
    }
  }

  lemma {:induction false} InsertStable<T>(le: (T, T) -> bool, keep: T -> bool, x: T, s: seq<T>)
    requires forall a, b :: keep(a) && keep(b) && (a == x || a in s) && (b == x || b in s) ==> le(a, b)
    ensures Filter(keep, Insert(le, x, s)) == (if keep(x) then [x] else []) + Filter(keep, s)
  {
    hide Filter;
    FilterCons(keep, x, s);
    if s == [] || le(x, s[0]) {
      assert Insert(le, x, s) == [x] + s;
    } else {
      var rest := Insert(le, x, s[1..]);
      assert Insert(le, x, s) == [s[0]] + rest;
      FilterCons(keep, s[0], rest);
      FilterCons(keep, s[0], s[1..]);
      assert s == [s[0]] + s[1..];
      assert forall y :: y in s[1..] ==> y in s;
      InsertStable(le, keep, x, s[1..]);
      assert !keep(x) || !keep(s[0]);
    }
  }

  lemma {:induction false} FilterCons<T>(keep: T -> bool, x: T, s: seq<T>)
    ensures Filter(keep, [x] + s) == (if keep(x) then [x] else []) + Filter(keep, s)
  {
    assert ([x] + s)[1..] == s;
  }

  /** The sort is stable: elements that are all equivalent keep their order. */
  lemma {:induction false} SortStable<T>(le: (T, T) -> bool, keep: T -> bool, s: seq<T>)
    requires forall a, b :: keep(a) && keep(b) && a in s && b in s ==> le(a, b)
    ensures Filter(keep, StableSort(le, s)) == Filter(keep, s)
  {
    if s == [] {
    } else {
      var rest := StableSort(le, s[1..]);
      assert s == [s[0]] + s[1..];
      SortStable(le, keep, s[1..]);
      forall x ensures x in rest <==> x in s[1..] { SortMembers(le, s[1..], x); }
      InsertStable(le, keep, s[0], rest);
    }
  }

  /** Where two kept elements are. */
  lemma {:induction false} FilterPlaces<T>(keep: T -> bool, s: seq<T>, x: T, rest: seq<T>) returns (i: nat)
    requires Filter(keep, s) == [x] + rest
    ensures i < |s| && s[i] == x && Filter(keep, s[i + 1..]) == rest
  {
    if keep(s[0]) {
      i := 0;
      assert Filter(keep, s)[0] == s[0] && Filter(keep, s)[1..] == Filter(keep, s[1..]);
      assert ([x] + rest)[1..] == rest;
    } else {
      assert Filter(keep, s) == [] + Filter(keep, s[1..]);
      var j := FilterPlaces(keep, s[1..], x, rest);
      i := j + 1;
      assert s[1..][j + 1..] == s[i + 1..];
    }
  }

  lemma LexIsTotalPreorder()
    ensures TotalPreorder(LexLe)
  {
    forall a, b ensures LexLe(a, b) || LexLe(b, a) { LexTotal(a, b); }
    forall a, b, c | LexLe(a, b) && LexLe(b, c) ensures LexLe(a, c) { LexTransitive(a, b, c); }
  }

  /** `sorted(keys)` on strings. */
  function SortStrings(s: seq<string>): seq<string> {
    StableSort(LexLe, s)
  }

  ghost predicate StrictlyIncreasing(s: seq<string>) {
    forall i, j :: 0 <= i < j < |s| ==> LexLt(s[i], s[j])
  }

  ghost predicate Distinct<T>(s: seq<T>) {
    forall i, j :: 0 <= i < j < |s| ==> s[i] != s[j]
  }

  lemma DistinctOnce<T>(s: seq<T>, x: T)
    requires Distinct(s) && x in s
    ensures multiset(s)[x] == 1
  {
    var i :| 0 <= i < |s| && s[i] == x;
    assert s == s[..i] + [s[i]] + s[i + 1..];
    assert x !in s[..i] && x !in s[i + 1..];
  }

  lemma TwiceCounted<T>(s: seq<T>, i: nat, j: nat)
    requires i < j < |s| && s[i] == s[j]
    ensures multiset(s)[s[i]] >= 2
  {
    assert s == s[..j] + [s[j]] + s[j + 1..];
    assert s[i] in s[..j];
  }

  lemma DistinctIsSet<T>(s: seq<T>)
    ensures Distinct(s) <==> (forall x :: x in s ==> multiset(s)[x] == 1)
  {
    if Distinct(s) {
      forall x | x in s ensures multiset(s)[x] == 1 {
        DistinctOnce(s, x);
      }
    } else {
      var i, j :| 0 <= i < j < |s| && s[i] == s[j];
      TwiceCounted(s, i, j);
    }
  }

  lemma SameMembers<T>(s: seq<T>, t: seq<T>)
    requires Distinct(s) && Distinct(t)
    requires forall x :: x in s <==> x in t
    ensures multiset(s) == multiset(t)
  {
    DistinctIsSet(s);
    DistinctIsSet(t);
    forall x ensures multiset(s)[x] == multiset(t)[x] {
      assert x in s <==> x in multiset(s);
      assert x in t <==> x in multiset(t);
    }
  }

  lemma SortedDistinct(s: seq<string>)
    requires Distinct(s)
    ensures StrictlyIncreasing(SortStrings(s)) && Distinct(SortStrings(s))
    ensures multiset(SortStrings(s)) == multiset(s)
  {
    LexIsTotalPreorder();
    SortSorts(LexLe, s);
    SortKeeps(LexLe, s);
    DistinctIsSet(s);
    DistinctIsSet(SortStrings(s));
  }

  /** A strictly increasing list is determined by its members. */
  lemma {:induction false} IncreasingUnique(s: seq<string>, t: seq<string>)
    requires StrictlyIncreasing(s) && StrictlyIncreasing(t)
    requires forall x :: x in s <==> x in t
    ensures s == t
  {
    assert (s != [] ==> s[0] in t) && (t != [] ==> t[0] in s);
    if s == [] {
    } else {
      if s[0] != t[0] {
        LexAntisymmetric(s[0], t[0]);
      }
      forall x ensures x in s[1..] <==> x in t[1..] {
        assert x in s <==> x in t;
        if x == s[0] {
          assert x !in s[1..] && x !in t[1..];
        }
      }
      IncreasingUnique(s[1..], t[1..]);
      assert s == [s[0]] + s[1..] && t == [t[0]] + t[1..];
    }
  }

  /** Sorting forgets the order its input came in. */
  lemma SortedUnique(s: seq<string>, t: seq<string>)
    requires Distinct(s) && Distinct(t)
    requires forall x :: x in s <==> x in t
    ensures SortStrings(s) == SortStrings(t)
  {
    SortedDistinct(s);
    SortedDistinct(t);
    forall x ensures x in SortStrings(s) <==> x in SortStrings(t) {
      SortMembers(LexLe, s, x);
      SortMembers(LexLe, t, x);
    }
    IncreasingUnique(SortStrings(s), SortStrings(t));
  }

  // ----- A sequence without one element -------------------------------------

  lemma TailWithout<T>(s: seq<T>, j: nat)
    requires 0 < j < |s|
    ensures (s[..j] + s[j + 1..])[0] == s[0]
    ensures (s[..j] + s[j + 1..])[1..] == s[1..][..j - 1] + s[1..][j..]
  {
  }

  lemma MembersWithout<T>(s: seq<T>, j: nat)
    requires j < |s|
    ensures multiset(s[..j] + s[j + 1..]) == multiset(s) - multiset{s[j]}
  {
    assert s == s[..j] + [s[j]] + s[j + 1..];
  }

  /** Where a permutation has the first element; without it on both sides, a permutation remains. */
  lemma HeadInPermutation<T>(s: seq<T>, t: seq<T>) returns (j: nat)
    requires multiset(s) == multiset(t) && s != []
    ensures j < |t| && t[j] == s[0]
    ensures multiset(s[..0] + s[1..]) == multiset(t[..j] + t[j + 1..])
    ensures |s[..0] + s[1..]| < |s|
  {
    assert s[0] in multiset(t);
    j :| 0 <= j < |t| && t[j] == s[0];
    MembersWithout(s, 0);
    MembersWithout(t, j);
  }

  lemma EmptyPermutation<T>(s: seq<T>, t: seq<T>)
    requires multiset(s) == multiset(t) && s == []
    ensures t == []
  {
    assert |multiset(t)| == |t|;
  }
}
