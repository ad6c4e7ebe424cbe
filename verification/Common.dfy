/** Small shared vocabulary: optional values, finite-set counting, and the sorting contract. */
module Common {

  datatype Option<+T> = None | Some(value: T)

  datatype Result<+T, +E> = Ok(value: T) | Err(error: E)

  ghost predicate Distinct<T>(s: seq<T>) {
    forall i, j :: 0 <= i < j < |s| ==> s[i] != s[j]
  }

  /** A subset of a finite set is no larger than the set. */
  lemma {:induction false} SubsetSize<T>(a: set<T>, b: set<T>)
    requires a <= b
    ensures |a| <= |b|
  {
    assert b == a + (b - a);
  }

  /** A subset as large as the whole set is the whole set. */
  lemma SubsetOfSameSize<T>(a: set<T>, b: set<T>)
    requires a <= b && |a| == |b|
    ensures a == b
  {
    assert |b| == |a| + |b - a| by { assert b == a + (b - a); }
  }

  lemma Member<T>(s: set<T>) returns (x: T)
    requires s != {}
    ensures x in s
  {
    x :| x in s;
  }

  /** Counting the members of s visited so far, as one more element leaves `left`. */
  lemma VisitOne<T>(s: set<T>, left: set<T>, x: T)
    requires x in left
    ensures |s - (left - {x})| == |s - left| + (if x in s then 1 else 0)
  {
    assert s - (left - {x}) == (s - left) + (if x in s then {x} else {});
  }

  /** Removing one position removes one occurrence. */
  lemma RemoveAt<T>(s: seq<T>, i: nat)
    requires i < |s|
    ensures multiset(s[..i] + s[i + 1..]) == multiset(s) - multiset{s[i]}
  {
    assert s == s[..i] + [s[i]] + s[i + 1..];
  }

  /** Where the head of s sits in a permutation of s; removing it there leaves a permutation of the tail. */
  lemma HeadInPermutation<T>(s: seq<T>, t: seq<T>) returns (i: nat)
    requires multiset(s) == multiset(t) && s != []
    ensures i < |t| && t[i] == s[0]
    ensures multiset(s[1..]) == multiset(t[..i] + t[i + 1..])
  {
    assert s[0] in multiset(s);
    assert s[0] in t;
    i :| i < |t| && t[i] == s[0];
    RemoveAt(t, i);
    RemoveAt(s, 0);
    assert s[..0] + s[1..] == s[1..];
  }

  ghost function Mapped<T, U>(f: T -> U, s: seq<T>): seq<U> {
    seq(|s|, i requires 0 <= i < |s| => f(s[i]))
  }

  /** Mapping a permutation gives a permutation. */
  lemma {:induction false} MappedOfPermutation<T, U>(f: T -> U, s: seq<T>, t: seq<T>)
    requires multiset(s) == multiset(t)
    ensures multiset(Mapped(f, s)) == multiset(Mapped(f, t))
  {
    if s == [] {
      SameElements(s, t);
    } else {
      var i := HeadInPermutation(s, t);
      MappedOfPermutation(f, s[1..], t[..i] + t[i + 1..]);
      MappedWithout(f, s, 0);
      assert s[..0] + s[1..] == s[1..];
      MappedWithout(f, t, i);
    }
  }

  lemma MappedWithout<T, U>(f: T -> U, s: seq<T>, i: nat)
    requires i < |s|
    ensures multiset(Mapped(f, s)) == multiset(Mapped(f, s[..i] + s[i + 1..])) + multiset{f(s[i])}
  {
    var m := Mapped(f, s);
    assert Mapped(f, s[..i] + s[i + 1..]) == m[..i] + m[i + 1..];
    RemoveAt(m, i);
    assert m[i] in m;
  }

  // ---------------------------------------------------------------- sorting

  ghost predicate TotalPreorder<T(!new)>(lessEq: (T, T) -> bool) {
    && (forall x, y :: lessEq(x, y) || lessEq(y, x))
    && (forall x, y, z :: lessEq(x, y) && lessEq(y, z) ==> lessEq(x, z))
  }

  ghost predicate SortedBy<T(!new)>(lessEq: (T, T) -> bool, s: seq<T>) {
    forall i, j :: 0 <= i < j < |s| ==> lessEq(s[i], s[j])
  }

  /**
   * What the Go `sort` package promises its callers, and no more: the order of
   * elements that compare equal is unspecified.
   */
  method Sort<T(!new)>(s: seq<T>, lessEq: (T, T) -> bool) returns (r: seq<T>)
    requires TotalPreorder(lessEq)
    ensures SortedBy(lessEq, r)
    ensures multiset(r) == multiset(s)
  {
    r := [];
    for i := 0 to |s|
      invariant SortedBy(lessEq, r)
      invariant multiset(r) == multiset(s[..i])
    {
      assert s[..i + 1] == s[..i] + [s[i]];
      r := Insert(r, s[i], lessEq);
    }
    assert s[..|s|] == s;
  }

  /** Inserts x behind everything that may come before it. */
  method Insert<T(!new)>(s: seq<T>, x: T, lessEq: (T, T) -> bool) returns (r: seq<T>)
    requires TotalPreorder(lessEq) && SortedBy(lessEq, s)
    ensures SortedBy(lessEq, r)
    ensures multiset(r) == multiset(s) + multiset{x}
  {
    var k := 0;
    while k < |s| && lessEq(s[k], x)
      invariant 0 <= k <= |s|
      invariant forall j :: 0 <= j < k ==> lessEq(s[j], x)
    {
      k := k + 1;
    }
    forall j | k <= j < |s| ensures lessEq(x, s[j]) {
      assert lessEq(x, s[k]);
    }
    InsertKeepsSorted(s, k, x, lessEq);
    InsertAddsOne(s, k, x);
    r := s[..k] + [x] + s[k..];
  }

  lemma InsertAddsOne<T>(s: seq<T>, k: nat, x: T)
    requires k <= |s|
    ensures multiset(s[..k] + [x] + s[k..]) == multiset(s) + multiset{x}
  {
    assert s == s[..k] + s[k..];
  }

  lemma InsertKeepsSorted<T(!new)>(s: seq<T>, k: nat, x: T, lessEq: (T, T) -> bool)
    requires k <= |s| && SortedBy(lessEq, s)
    requires (forall j :: 0 <= j < k ==> lessEq(s[j], x)) && (forall j :: k <= j < |s| ==> lessEq(x, s[j]))
    ensures SortedBy(lessEq, s[..k] + [x] + s[k..])
  {
  }

  /** Sequences with equal element counts have equal lengths and members. */
  lemma SameElements<T>(s: seq<T>, t: seq<T>)
    requires multiset(s) == multiset(t)
    ensures |s| == |t|
    ensures forall x :: x in s <==> x in t
  {
    assert |multiset(s)| == |s| && |multiset(t)| == |t|;
    forall x ensures x in s <==> x in t {
      assert x in multiset(s) <==> x in s;
      assert x in multiset(t) <==> x in t;
    }
  }

  /** Reordering keeps distinctness. */
  lemma SameDistinctness<T>(s: seq<T>, t: seq<T>)
    requires multiset(s) == multiset(t) && Distinct(s)
    ensures Distinct(t)
  {
    forall i, j | 0 <= i < j < |t| ensures t[i] != t[j] {
      if t[i] == t[j] {
        assert t == t[..j] + [t[j]] + t[j + 1..];
        assert t[i] in t[..j];
        assert multiset(t)[t[i]] >= 2;
        DistinctCounts(s, t[i]);
      }
    }
  }

  lemma {:induction false} DistinctCounts<T>(s: seq<T>, x: T)
    requires Distinct(s)
    ensures multiset(s)[x] <= 1
  {
    if s != [] {
      var n := |s| - 1;
      assert s == s[..n] + [s[n]];
      DistinctCounts(s[..n], x);
    }
  }
}
