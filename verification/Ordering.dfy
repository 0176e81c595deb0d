/**
 Strict total orders, the lexicographic order on sequences, least elements of
 finite sets, and sorting. Ordered maps and sets, derived comparisons of
 identities and `sort` calls all rest on these.
 */
module Ordering {
  import opened Collections

  ghost predicate StrictTotal<T(!new)>(less: (T, T) -> bool) {
    && (forall a :: !less(a, a))
    && (forall a, b, c :: less(a, b) && less(b, c) ==> less(a, c))
    && (forall a, b :: a == b || less(a, b) || less(b, a))
  }

  /** Lexicographic comparison; a proper prefix is the smaller sequence. */
  predicate LexLess<T(==)>(less: (T, T) -> bool, a: seq<T>, b: seq<T>) {
    if b == [] then false
    else if a == [] then true
    else less(a[0], b[0]) || (a[0] == b[0] && LexLess(less, a[1..], b[1..]))
  }

  predicate CharLess(a: char, b: char) {
    a < b
  }

  predicate StringLess(a: string, b: string) {
    LexLess(CharLess, a, b)
  }

  predicate PathLess(a: seq<string>, b: seq<string>) {
    LexLess(StringLess, a, b)
  }

  /** Sequences compare by their first difference. */
  lemma {:induction false} LexAt<T>(less: (T, T) -> bool, a: seq<T>, b: seq<T>, i: nat)
    requires i < |a| && i < |b| && a[..i] == b[..i] && less(a[i], b[i])
    ensures LexLess(less, a, b)
  {
    if i > 0 {
      assert a[0] == a[..i][0] == b[..i][0] == b[0];
      assert a[1..][..i - 1] == a[..i][1..] && b[1..][..i - 1] == b[..i][1..];
      LexAt(less, a[1..], b[1..], i - 1);
    }
  }

  lemma {:induction false} FirstDifference<T>(a: seq<T>, b: seq<T>) returns (i: nat)
    requires |a| == |b| && a != b
    ensures i < |a| && a[..i] == b[..i] && a[i] != b[i]
  {
    var n := |a| - 1;
    if a[..n] == b[..n] {
      assert a == a[..n] + [a[n]] && b == b[..n] + [b[n]];
      i := n;
    } else {
      i := FirstDifference(a[..n], b[..n]);
      assert a[..n][..i] == a[..i] && b[..n][..i] == b[..i];
    }
  }

  lemma {:induction false} LexTransitive<T(!new)>(less: (T, T) -> bool, a: seq<T>, b: seq<T>, c: seq<T>)
    requires StrictTotal(less)
    requires LexLess(less, a, b) && LexLess(less, b, c)
    ensures LexLess(less, a, c)
  {
    if a != [] && a[0] == b[0] && b[0] == c[0] {
      LexTransitive(less, a[1..], b[1..], c[1..]);
    }
  }

  lemma {:induction false} LexTrichotomy<T(!new)>(less: (T, T) -> bool, a: seq<T>, b: seq<T>)
    requires StrictTotal(less)
    ensures a == b || LexLess(less, a, b) || LexLess(less, b, a)
    ensures !LexLess(less, a, a)
  {
    if a != [] && b != [] && a[0] == b[0] {
      assert a == [a[0]] + a[1..] && b == [b[0]] + b[1..];
      LexTrichotomy(less, a[1..], b[1..]);
    } else if a != [] {
      LexTrichotomy(less, a[1..], []);
    }
  }

  lemma StringLessTotal()
    ensures StrictTotal(StringLess)
  {
    forall a: string, b: string, c: string | StringLess(a, b) && StringLess(b, c) ensures StringLess(a, c) {
      LexTransitive(CharLess, a, b, c);
    }
    forall a: string, b: string ensures a == b || StringLess(a, b) || StringLess(b, a) {
      LexTrichotomy(CharLess, a, b);
    }
    forall a: string ensures !StringLess(a, a) {
      LexTrichotomy(CharLess, a, a);
    }
  }

  lemma PathLessTotal()
    ensures StrictTotal(PathLess)
  {
    StringLessTotal();
    forall a: seq<string>, b: seq<string>, c: seq<string> | PathLess(a, b) && PathLess(b, c) ensures PathLess(a, c) {
      LexTransitive(StringLess, a, b, c);
    }
    forall a: seq<string>, b: seq<string> ensures a == b || PathLess(a, b) || PathLess(b, a) {
      LexTrichotomy(StringLess, a, b);
    }
    forall a: seq<string> ensures !PathLess(a, a) {
      LexTrichotomy(StringLess, a, a);
    }
  }

  ghost predicate IsLeast<T>(less: (T, T) -> bool, x: T, s: set<T>) {
    x in s && forall y :: y in s ==> !less(y, x)
  }

  lemma {:induction false} LeastExists<T(!new)>(less: (T, T) -> bool, s: set<T>)
    requires StrictTotal(less) && s != {}
    ensures exists x :: IsLeast(less, x, s)
    decreases |s|
  {
    var x :| x in s;
    if s == {x} {
      assert IsLeast(less, x, s);
    } else {
      LeastExists(less, s - {x});
      var y :| IsLeast(less, y, s - {x});
      assert IsLeast(less, if less(x, y) then x else y, s);
    }
  }

  ghost predicate Sorted<T>(less: (T, T) -> bool, s: seq<T>) {
    forall i, j :: 0 <= i < j < |s| ==> !less(s[j], s[i])
  }

  function Insert<T>(less: (T, T) -> bool, x: T, s: seq<T>): (r: seq<T>)
    ensures multiset(r) == multiset{x} + multiset(s)
    ensures |r| == |s| + 1
  {
    if s == [] || less(x, s[0]) then [x] + s
    else
      assert s == [s[0]] + s[1..];
      [s[0]] + Insert(less, x, s[1..])
  }

  function Sort<T>(less: (T, T) -> bool, s: seq<T>): (r: seq<T>)
    ensures multiset(r) == multiset(s)
    ensures |r| == |s|
  {
    if s == [] then []
    else
      assert s == [s[0]] + s[1..];
      Insert(less, s[0], Sort(less, s[1..]))
  }

  lemma {:induction false} SortMembers<T>(less: (T, T) -> bool, s: seq<T>)
    ensures forall x :: x in Sort(less, s) <==> x in s
  {
    forall x ensures x in Sort(less, s) <==> x in s {
      assert x in multiset(Sort(less, s)) <==> x in multiset(s);
    }
  }

  lemma {:induction false} InsertSorted<T(!new)>(less: (T, T) -> bool, x: T, s: seq<T>)
    requires StrictTotal(less) && Sorted(less, s)
    ensures Sorted(less, Insert(less, x, s))
  {
    var r := Insert(less, x, s);
    if s != [] && !less(x, s[0]) {
      InsertSorted(less, x, s[1..]);
      var rest := Insert(less, x, s[1..]);
      forall j | 0 <= j < |rest| ensures !less(rest[j], s[0]) {
        assert rest[j] in multiset(rest);
        assert rest[j] == x || rest[j] in s[1..];
      }
    }
  }

  lemma {:induction false} SortSorted<T(!new)>(less: (T, T) -> bool, s: seq<T>)
    requires StrictTotal(less)
    ensures Sorted(less, Sort(less, s))
  {
    if s != [] {
      SortSorted(less, s[1..]);
      InsertSorted(less, s[0], Sort(less, s[1..]));
    }
  }

  lemma SortedHeadLeast<T(!new)>(less: (T, T) -> bool, s: seq<T>, x: T)
    requires StrictTotal(less) && Sorted(less, s) && x in s
    ensures !less(x, s[0])
  {
  }

  lemma SplitBag<T>(s: seq<T>)
    requires s != []
    ensures multiset(s) == multiset{s[0]} + multiset(s[1..])
  {
    assert s == [s[0]] + s[1..];
  }

  /** A sorted sequence is determined by its bag of elements. */
  lemma {:induction false} SortedUnique<T(!new)>(less: (T, T) -> bool, a: seq<T>, b: seq<T>)
    requires StrictTotal(less) && Sorted(less, a) && Sorted(less, b)
    requires multiset(a) == multiset(b)
    ensures a == b
  {
    assert |a| == |multiset(a)| == |multiset(b)| == |b|;
    if a != [] {
      assert a[0] == b[0] by {
        assert a[0] in multiset(b) && b[0] in multiset(a);
        SortedHeadLeast(less, b, a[0]);
        SortedHeadLeast(less, a, b[0]);
      }
      SplitBag(a);
      SplitBag(b);
      assert multiset(a[1..]) == multiset(a) - multiset{a[0]} == multiset(b[1..]);
      SortedUnique(less, a[1..], b[1..]);
      assert a == [a[0]] + a[1..] && b == [b[0]] + b[1..];
    }
  }

  // -- Dropping duplicates ------------------------------------------------------

  /** `Vec::dedup`: drop an element equal to the one before it. */
  function Dedup<T(==)>(s: seq<T>): seq<T> {
    if |s| <= 1 then s
    else if s[0] == s[1] then Dedup(s[1..])
    else [s[0]] + Dedup(s[1..])
  }

  lemma {:induction false} DedupMembers<T>(s: seq<T>)
    ensures Elements(Dedup(s)) == Elements(s)
    ensures s != [] ==> Dedup(s) != [] && Dedup(s)[0] == s[0]
  {
    if |s| > 1 {
      DedupMembers(s[1..]);
      assert Elements(s) == {s[0]} + Elements(s[1..]);
      if s[0] != s[1] {
        assert Elements([s[0]] + Dedup(s[1..])) == {s[0]} + Elements(Dedup(s[1..]));
      }
    }
  }

  lemma {:induction false} DedupDistinct<T(!new)>(less: (T, T) -> bool, s: seq<T>)
    requires StrictTotal(less) && Sorted(less, s)
    ensures Distinct(Dedup(s))
  {
    if |s| > 1 {
      DedupDistinct(less, s[1..]);
      DedupMembers(s[1..]);
      if s[0] != s[1] {
        forall x | x in s[1..] ensures x != s[0] {
          SortedHeadLeast(less, s[1..], x);
        }
        assert s[0] !in Elements(Dedup(s[1..]));
      }
    }
  }

  lemma SortDistinct<T>(less: (T, T) -> bool, s: seq<T>)
    requires Distinct(s)
    ensures Distinct(Sort(less, s))
  {
    var r := Sort(less, s);
    SortMembers(less, s);
    DistinctSize(s);
    assert Elements(r) == Elements(s);
    SizeDistinct(r);
  }

  lemma {:induction false} DedupSorted<T(!new)>(less: (T, T) -> bool, s: seq<T>)
    requires Sorted(less, s)
    ensures Sorted(less, Dedup(s))
  {
    if |s| > 1 {
      DedupSorted(less, s[1..]);
      DedupMembers(s[1..]);
      if s[0] != s[1] {
        forall x | x in Dedup(s[1..]) ensures !less(x, s[0]) {
          assert x in Elements(Dedup(s[1..]));
        }
      }
    }
  }

  /** `sort` then `dedup`: each element once, in order. */
  function SortedSet<T(==)>(less: (T, T) -> bool, s: seq<T>): seq<T> {
    Dedup(Sort(less, s))
  }

  lemma SortedSetIsSet<T(!new)>(less: (T, T) -> bool, s: seq<T>)
    requires StrictTotal(less)
    ensures var r := SortedSet(less, s); Distinct(r) && Sorted(less, r) && Elements(r) == Elements(s)
  {
    SortSorted(less, s);
    SortMembers(less, s);
    assert Elements(Sort(less, s)) == Elements(s);
    DedupMembers(Sort(less, s));
    DedupDistinct(less, Sort(less, s));
    DedupSorted(less, Sort(less, s));
  }

  /** The result depends on the elements alone, and tells them. */
  lemma SortedSetCanonical<T(!new)>(less: (T, T) -> bool, a: seq<T>, b: seq<T>)
    requires StrictTotal(less)
    ensures SortedSet(less, a) == SortedSet(less, b) <==> Elements(a) == Elements(b)
  {
    SortedSetIsSet(less, a);
    SortedSetIsSet(less, b);
    if Elements(a) == Elements(b) {
      DistinctBag(SortedSet(less, a), SortedSet(less, b));
      SortedUnique(less, SortedSet(less, a), SortedSet(less, b));
    }
  }
}
