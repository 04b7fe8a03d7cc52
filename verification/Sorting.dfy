/** Orders, sorting and filtering shared by the other modules.

The source sorts thread ids, check identities and file paths with library sorts;
`SortSet` and `SortSeq` stand for those calls.
*/
module Sorting {

  ghost predicate TotalOrder<T(!new)>(le: (T, T) -> bool) {
    && (forall x, y :: le(x, y) || le(y, x))
    && (forall x, y :: le(x, y) && le(y, x) ==> x == y)
    && (forall x, y, z :: le(x, y) && le(y, z) ==> le(x, z))
  }

  ghost predicate Sorted<T>(s: seq<T>, le: (T, T) -> bool) {
    forall i, j :: 0 <= i < j < |s| ==> le(s[i], s[j])
  }

  ghost predicate NoDuplicates<T>(s: seq<T>) {
    forall i, j :: 0 <= i < j < |s| ==> s[i] != s[j]
  }

  function Elements<T>(s: seq<T>): set<T> {
    set x | x in s
  }

  lemma ElementsSnoc<T>(s: seq<T>, n: nat)
    requires 0 < n <= |s|
    ensures Elements(s[..n]) == Elements(s[..n-1]) + {s[n-1]}
    ensures NoDuplicates(s) ==> s[n-1] !in Elements(s[..n-1])
  {
    assert s[..n] == s[..n-1] + [s[n-1]];
  }

  lemma {:induction false} ElementsCount<T>(s: seq<T>, n: nat)
    requires n <= |s| && NoDuplicates(s)
    ensures |Elements(s[..n])| == n
  {
    if n > 0 {
      ElementsCount(s, n - 1);
      ElementsSnoc(s, n);
    }
  }

  function Filter<T(!new)>(s: seq<T>, p: T -> bool): (r: seq<T>)
    ensures forall x :: x in r <==> x in s && p(x)
  {
    if s == [] then []
    else if p(s[0]) then [s[0]] + Filter(s[1..], p)
    else Filter(s[1..], p)
  }

  lemma {:induction false} FilterAppend<T(!new)>(a: seq<T>, b: seq<T>, p: T -> bool)
    ensures Filter(a + b, p) == Filter(a, p) + Filter(b, p)
  {
    if a == [] {
      assert a + b == b;
    } else {
      assert (a + b)[1..] == a[1..] + b;
      FilterAppend(a[1..], b, p);
    }
  }

  /** Filtering keeps any pairwise relation that holds from left to right. */
  lemma {:induction false} FilterKeepsPairs<T(!new)>(s: seq<T>, p: T -> bool, rel: (T, T) -> bool)
    requires Sorted(s, rel)
    ensures Sorted(Filter(s, p), rel)
  {
    if s != [] {
      FilterKeepsPairs(s[1..], p, rel);
      if p(s[0]) {
        var rest := Filter(s[1..], p);
        forall j | 0 <= j < |rest| ensures rel(s[0], rest[j]) {
          assert rest[j] in s[1..];
        }
      }
    }
  }

  lemma {:induction false} LeastExists<T(!new)>(s: set<T>, le: (T, T) -> bool)
    requires TotalOrder(le) && s != {}
    ensures exists least :: least in s && forall y :: y in s ==> le(least, y)
    decreases |s|
  {
    var x :| x in s;
    var rest := s - {x};
    if rest == {} {
      assert s == {x};
      assert le(x, x);
    } else {
      LeastExists(rest, le);
      var other :| other in rest && forall y :: y in rest ==> le(other, y);
      var least := if le(x, other) then x else other;
      assert least in s && forall y :: y in s ==> le(least, y) by {
        forall y | y in s ensures le(least, y) {
          assert y == x || y in rest;
        }
      }
    }
  }

  /** The elements of a set, smallest first: Python's `sorted` over distinct keys. */
  function SortSet<T(!new)>(s: set<T>, le: (T, T) -> bool): (r: seq<T>)
    requires TotalOrder(le)
    ensures Sorted(r, le) && NoDuplicates(r)
    ensures forall x :: x in r <==> x in s
    decreases |s|
  {
    if s == {} then []
    else
      LeastExists(s, le);
      var least :| least in s && forall y :: y in s ==> le(least, y);
      var rest := SortSet(s - {least}, le);
      [least] + rest
  }

  function Insert<T>(x: T, s: seq<T>, le: (T, T) -> bool): (r: seq<T>)
    ensures multiset(r) == multiset(s) + multiset{x}
  {
    if s == [] || le(x, s[0]) then [x] + s
    else
      assert s == [s[0]] + s[1..];
      [s[0]] + Insert(x, s[1..], le)
  }

  lemma {:induction false} InsertSorted<T(!new)>(x: T, s: seq<T>, le: (T, T) -> bool)
    requires TotalOrder(le) && Sorted(s, le)
    ensures Sorted(Insert(x, s, le), le)
  {
    if s != [] && !le(x, s[0]) {
      InsertSorted(x, s[1..], le);
      var rest := Insert(x, s[1..], le);
      forall j | 0 <= j < |rest| ensures le(s[0], rest[j]) {
        assert rest[j] in multiset(rest);
      }
    }
  }

  /** A stable library sort of a list that may hold equal elements. */
  function SortSeq<T>(s: seq<T>, le: (T, T) -> bool): (r: seq<T>)
    ensures multiset(r) == multiset(s)
  {
    if s == [] then []
    else
      assert s == [s[0]] + s[1..];
      Insert(s[0], SortSeq(s[1..], le), le)
  }

  lemma {:induction false} SortSeqSorted<T(!new)>(s: seq<T>, le: (T, T) -> bool)
    requires TotalOrder(le)
    ensures Sorted(SortSeq(s, le), le)
  {
    if s != [] {
      SortSeqSorted(s[1..], le);
      InsertSorted(s[0], SortSeq(s[1..], le), le);
    }
  }

  lemma {:induction false} InsertNoDuplicates<T>(x: T, s: seq<T>, le: (T, T) -> bool)
    requires NoDuplicates(s) && x !in s
    ensures NoDuplicates(Insert(x, s, le))
  {
    if s != [] && !le(x, s[0]) {
      InsertNoDuplicates(x, s[1..], le);
      var rest := Insert(x, s[1..], le);
      forall j | 0 <= j < |rest| ensures s[0] != rest[j] {
        assert rest[j] in multiset(rest);
      }
    }
  }

  lemma {:induction false} SortSeqNoDuplicates<T>(s: seq<T>, le: (T, T) -> bool)
    requires NoDuplicates(s)
    ensures NoDuplicates(SortSeq(s, le))
  {
    if s != [] {
      SortSeqNoDuplicates(s[1..], le);
      assert s[0] !in multiset(s[1..]);
      InsertNoDuplicates(s[0], SortSeq(s[1..], le), le);
    }
  }

  lemma SameMembers<T(!new)>(a: seq<T>, b: seq<T>)
    requires multiset(a) == multiset(b)
    ensures forall x :: x in a <==> x in b
    ensures |a| == |b|
  {
    forall x ensures x in a <==> x in b {
      assert x in a <==> x in multiset(a);
      assert x in b <==> x in multiset(b);
    }
    assert |multiset(a)| == |a| && |multiset(b)| == |b|;
  }

  /** Two strictly ordered lists of the same elements are the same list. */
  lemma {:induction false} StrictListUnique<T(!new)>(a: seq<T>, b: seq<T>, lt: (T, T) -> bool)
    requires forall x, y :: lt(x, y) ==> !lt(y, x)
    requires Sorted(a, lt) && Sorted(b, lt)
    requires forall x :: x in a <==> x in b
    ensures a == b
  {
    assert a == [] <==> b == [] by {
      assert a != [] ==> a[0] in b;
      assert b != [] ==> b[0] in a;
    }
    if a != [] {
      assert a[0] == b[0] by {
        assert a[0] in b && b[0] in a;
        var i :| 0 <= i < |a| && a[i] == b[0];
        var j :| 0 <= j < |b| && b[j] == a[0];
      }
      forall x ensures x in a[1..] <==> x in b[1..] {
        if x in a[1..] {
          var i :| 0 < i < |a| && a[i] == x;
          assert lt(a[0], x) && x in b && x != b[0];
        }
        if x in b[1..] {
          var j :| 0 < j < |b| && b[j] == x;
          assert lt(b[0], x) && x in a && x != a[0];
        }
      }
      StrictListUnique(a[1..], b[1..], lt);
    }
  }

  function Strict<T(==)>(le: (T, T) -> bool): (lt: (T, T) -> bool) {
    (x, y) => le(x, y) && x != y
  }

  lemma SortedSetUnique<T(!new)>(a: seq<T>, b: seq<T>, le: (T, T) -> bool)
    requires TotalOrder(le)
    requires Sorted(a, le) && NoDuplicates(a)
    requires Sorted(b, le) && NoDuplicates(b)
    requires forall x :: x in a <==> x in b
    ensures a == b
  {
    StrictListUnique(a, b, Strict(le));
  }

  /** Filtering a sorted list of keys is sorting the filtered keys. */
  lemma FilterSortSet<T(!new)>(s: set<T>, p: T -> bool, kept: set<T>, le: (T, T) -> bool)
    requires TotalOrder(le)
    requires forall x :: x in kept <==> x in s && p(x)
    ensures Filter(SortSet(s, le), p) == SortSet(kept, le)
  {
    var sorted := SortSet(s, le);
    FilterKeepsPairs(sorted, p, le);
    FilterKeepsPairs(sorted, p, (x, y) => x != y);
    SortedSetUnique(Filter(sorted, p), SortSet(kept, le), le);
  }

  lemma FilterSnoc<T(!new)>(s: seq<T>, i: nat, p: T -> bool)
    requires i < |s|
    ensures Filter(s[..i+1], p) == if p(s[i]) then Filter(s[..i], p) + [s[i]] else Filter(s[..i], p)
  {
    assert s[..i+1] == s[..i] + [s[i]];
    FilterAppend(s[..i], [s[i]], p);
  }

  lemma FilterEmpty<T(!new)>(s: seq<T>, p: T -> bool)
    ensures Filter(s, p) == [] <==> forall x :: x in s ==> !p(x)
  {
    var r := Filter(s, p);
    if r != [] { assert r[0] in r; }
    if x :| x in s && p(x) { assert x in r; }
  }

  lemma {:induction false} FilterAgrees<T(!new)>(s: seq<T>, p: T -> bool, q: T -> bool)
    requires forall x :: x in s ==> p(x) == q(x)
    ensures Filter(s, p) == Filter(s, q)
  {
    if s != [] { FilterAgrees(s[1..], p, q); }
  }

  function Lexicographic<T(==)>(a: seq<T>, b: seq<T>, le: (T, T) -> bool): (r: bool) {
    a == [] || (b != [] && (if a[0] == b[0] then Lexicographic(a[1..], b[1..], le) else le(a[0], b[0])))
  }

  lemma {:induction false} LexicographicConnected<T(!new)>(a: seq<T>, b: seq<T>, le: (T, T) -> bool)
    requires TotalOrder(le)
    ensures Lexicographic(a, b, le) || Lexicographic(b, a, le)
    ensures Lexicographic(a, b, le) && Lexicographic(b, a, le) ==> a == b
  {
    if a != [] && b != [] && a[0] == b[0] {
      LexicographicConnected(a[1..], b[1..], le);
      assert a == [a[0]] + a[1..] && b == [b[0]] + b[1..];
    }
  }

  lemma {:induction false} LexicographicTransitive<T(!new)>(a: seq<T>, b: seq<T>, c: seq<T>, le: (T, T) -> bool)
    requires TotalOrder(le)
    requires Lexicographic(a, b, le) && Lexicographic(b, c, le)
    ensures Lexicographic(a, c, le)
  {
    if a != [] && a[0] == b[0] && b[0] == c[0] {
      LexicographicTransitive(a[1..], b[1..], c[1..], le);
    }
  }

  predicate NatLe(a: nat, b: nat) { a <= b }

  predicate CharLe(a: char, b: char) { a <= b }

  /** Code-point order on strings. */
  predicate StringLe(a: string, b: string) { Lexicographic(a, b, CharLe) }

  /** Order on tuples of strings: record keys and path components. */
  predicate KeyLe(a: seq<string>, b: seq<string>) { Lexicographic(a, b, StringLe) }

  lemma StringOrder()
    ensures TotalOrder(StringLe)
  {
    forall a: string, b: string
      ensures StringLe(a, b) || StringLe(b, a)
      ensures StringLe(a, b) && StringLe(b, a) ==> a == b
    {
      LexicographicConnected(a, b, CharLe);
    }
    forall a: string, b: string, c: string | StringLe(a, b) && StringLe(b, c) ensures StringLe(a, c) {
      LexicographicTransitive(a, b, c, CharLe);
    }
  }

  lemma KeyOrder()
    ensures TotalOrder(KeyLe)
  {
    StringOrder();
    forall a: seq<string>, b: seq<string>
      ensures KeyLe(a, b) || KeyLe(b, a)
      ensures KeyLe(a, b) && KeyLe(b, a) ==> a == b
    {
      LexicographicConnected(a, b, StringLe);
    }
    forall a: seq<string>, b: seq<string>, c: seq<string> | KeyLe(a, b) && KeyLe(b, c) ensures KeyLe(a, c) {
      LexicographicTransitive(a, b, c, StringLe);
    }
  }

  // ----- What the orders mean

  /** The two agree up to `k`, where `a` ends or has the smaller element. */
  ghost predicate DiffersAt<T(!new)>(a: seq<T>, b: seq<T>, k: nat, lt: (T, T) -> bool) {
    k <= |a| && k < |b| && a[..k] == b[..k] && (k == |a| || lt(a[k], b[k]))
  }

  ghost predicate Precedes<T(!new)>(a: seq<T>, b: seq<T>, lt: (T, T) -> bool) {
    exists k :: DiffersAt(a, b, k, lt)
  }

  lemma {:induction false} LexicographicIff<T(!new)>(a: seq<T>, b: seq<T>, le: (T, T) -> bool, lt: (T, T) -> bool)
    requires forall x, y :: lt(x, y) <==> le(x, y) && x != y
    ensures Lexicographic(a, b, le) <==> a == b || Precedes(a, b, lt)
  {
    if a == [] {
      if b != [] { assert DiffersAt(a, b, 0, lt); }
    } else if b != [] {
      if a[0] == b[0] {
        LexicographicIff(a[1..], b[1..], le, lt);
        assert a == [a[0]] + a[1..] && b == [b[0]] + b[1..];
        if k: nat :| DiffersAt(a[1..], b[1..], k, lt) {
          assert a[..k+1] == [a[0]] + a[1..][..k] && b[..k+1] == [b[0]] + b[1..][..k];
          assert DiffersAt(a, b, k + 1, lt);
        }
        if k: nat :| DiffersAt(a, b, k, lt) {
          assert k > 0 && a[1..][..k-1] == a[..k][1..] && b[1..][..k-1] == b[..k][1..];
          assert DiffersAt(a[1..], b[1..], k - 1, lt);
        }
      } else {
        if le(a[0], b[0]) { assert DiffersAt(a, b, 0, lt); }
        assert forall k :: 0 < k <= |a| && k <= |b| ==> a[..k][0] != b[..k][0];
      }
    }
  }

  ghost predicate TextBefore(a: string, b: string) { Precedes(a, b, (x: char, y: char) => x < y) }

  ghost predicate KeyBefore(a: seq<string>, b: seq<string>) { Precedes(a, b, (x, y) => TextBefore(x, y)) }

  lemma TextIrreflexive(a: string)
    ensures !TextBefore(a, a)
  {
  }

  /** Texts are ordered by their first different character, a prefix coming first. */
  lemma StringLeIff(a: string, b: string)
    ensures StringLe(a, b) <==> a == b || TextBefore(a, b)
  {
    LexicographicIff(a, b, CharLe, (x: char, y: char) => x < y);
  }

  /** Tuples are ordered by their first different component. */
  lemma KeyLeIff(a: seq<string>, b: seq<string>)
    ensures KeyLe(a, b) <==> a == b || KeyBefore(a, b)
  {
    forall x: string, y: string ensures TextBefore(x, y) <==> StringLe(x, y) && x != y {
      StringLeIff(x, y);
      TextIrreflexive(x);
    }
    LexicographicIff(a, b, StringLe, (x, y) => TextBefore(x, y));
  }
}
