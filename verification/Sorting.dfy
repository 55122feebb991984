/** Python's `sorted` with a key made of strings: text order, and a stable sort by it. */
module Sorting {
  import opened Sequences

  // ----- the order of strings, and of pairs of strings -----

  predicate Before(a: string, b: string) {
    b != "" && (a == "" || a[0] < b[0] || (a[0] == b[0] && Before(a[1..], b[1..])))
  }

  type SortKey = (string, string)

  predicate Less(a: SortKey, b: SortKey) {
    Before(a.0, b.0) || (a.0 == b.0 && Before(a.1, b.1))
  }

  lemma {:induction false} BeforeIsStrict(a: string, b: string)
    ensures !(Before(a, b) && Before(b, a)) && !Before(a, a)
    ensures Before(a, b) || a == b || Before(b, a)
  {
    if a != "" && b != "" {
      BeforeIsStrict(a[1..], b[1..]);
      assert a[0] == b[0] && a[1..] == b[1..] ==> a == b by {
        assert a == [a[0]] + a[1..] && b == [b[0]] + b[1..];
      }
    }
    if a != "" {
      BeforeItself(a);
    }
  }

  lemma {:induction false} BeforeItself(a: string)
    ensures !Before(a, a)
  {
    if a != "" {
      BeforeItself(a[1..]);
    }
  }

  lemma {:induction false} BeforeIsTransitive(a: string, b: string, c: string)
    requires Before(a, b) && Before(b, c)
    ensures Before(a, c)
  {
    if a != "" && a[0] == b[0] == c[0] {
      BeforeIsTransitive(a[1..], b[1..], c[1..]);
    }
  }

  lemma LessIsStrict(a: SortKey, b: SortKey)
    ensures !(Less(a, b) && Less(b, a)) && (Less(a, b) || a == b || Less(b, a))
  {
    BeforeIsStrict(a.0, b.0);
    BeforeIsStrict(a.1, b.1);
  }

  lemma LessIsTransitive(a: SortKey, b: SortKey, c: SortKey)
    requires Less(a, b) && Less(b, c)
    ensures Less(a, c)
  {
    if Before(a.0, b.0) && Before(b.0, c.0) {
      BeforeIsTransitive(a.0, b.0, c.0);
    } else if a.0 == b.0 == c.0 {
      BeforeIsTransitive(a.1, b.1, c.1);
    }
  }

  lemma NotLessIsTransitive(a: SortKey, b: SortKey, c: SortKey)
    requires !Less(b, a) && !Less(c, b)
    ensures !Less(c, a)
  {
    LessIsStrict(a, b);
    LessIsStrict(b, c);
    LessIsStrict(a, c);
    if a != b && b != c {
      LessIsTransitive(a, b, c);
    }
  }

  // ----- sorting -----

  /** `x` goes behind every element whose key is not greater than its own. */
  function InsertBy<T>(s: seq<T>, x: T, key: T -> SortKey): seq<T> {
    if s != [] && Less(key(x), key(s[|s| - 1])) then InsertBy(s[..|s| - 1], x, key) + [s[|s| - 1]] else s + [x]
  }

  /** `sorted(s, key=key)` */
  function SortBy<T>(s: seq<T>, key: T -> SortKey): seq<T> {
    if s == [] then [] else InsertBy(SortBy(s[..|s| - 1], key), s[|s| - 1], key)
  }

  ghost predicate SortedBy<T>(s: seq<T>, key: T -> SortKey) {
    forall i, j :: 0 <= i < j < |s| ==> !Less(key(s[j]), key(s[i]))
  }

  lemma {:induction false} InsertKeeps<T>(s: seq<T>, x: T, key: T -> SortKey)
    ensures multiset(InsertBy(s, x, key)) == multiset(s) + multiset{x}
    decreases |s|
  {
    if s != [] && Less(key(x), key(s[|s| - 1])) {
      InsertKeeps(s[..|s| - 1], x, key);
      InitAndLast(s);
    }
  }

  lemma {:induction false} SortKeeps<T>(s: seq<T>, key: T -> SortKey)
    ensures multiset(SortBy(s, key)) == multiset(s)
    decreases |s|
  {
    if s != [] {
      SortKeeps(s[..|s| - 1], key);
      InsertKeeps(SortBy(s[..|s| - 1], key), s[|s| - 1], key);
      InitAndLast(s);
    }
  }

  /** What bounds the elements of `s` and `x` from above bounds the result. */
  lemma InsertBounded<T>(s: seq<T>, x: T, key: T -> SortKey, top: SortKey)
    requires forall i :: 0 <= i < |s| ==> !Less(top, key(s[i]))
    requires !Less(top, key(x))
    ensures forall i :: 0 <= i < |InsertBy(s, x, key)| ==> !Less(top, key(InsertBy(s, x, key)[i]))
  {
    var r := InsertBy(s, x, key);
    InsertKeeps(s, x, key);
    forall i | 0 <= i < |r| ensures !Less(top, key(r[i])) {
      assert r[i] in multiset(r);
      assert r[i] == x || r[i] in multiset(s);
    }
  }

  lemma {:induction false} InsertSorts<T>(s: seq<T>, x: T, key: T -> SortKey)
    requires SortedBy(s, key)
    ensures SortedBy(InsertBy(s, x, key), key)
    decreases |s|
  {
    if s == [] {
    } else {
      var most, last := s[..|s| - 1], s[|s| - 1];
      LessIsStrict(key(x), key(last));
      if Less(key(x), key(last)) {
        InsertSorts(most, x, key);
        InsertBounded(most, x, key, key(last));
        AppendSorted(InsertBy(most, x, key), last, key);
      } else {
        forall i | 0 <= i < |s| ensures !Less(key(x), key(s[i])) {
          if i < |s| - 1 {
            NotLessIsTransitive(key(s[i]), key(last), key(x));
          }
        }
        AppendSorted(s, x, key);
      }
    }
  }

  lemma LesserComesFirst<T>(s: seq<T>, key: T -> SortKey, i: nat, j: nat)
    requires i < |s| && j < |s| && SortedBy(s, key) && Less(key(s[i]), key(s[j]))
    ensures i < j && !Less(key(s[j]), key(s[i]))
  {
    LessIsStrict(key(s[i]), key(s[j]));
  }

  lemma AppendSorted<T>(s: seq<T>, x: T, key: T -> SortKey)
    requires SortedBy(s, key) && forall i :: 0 <= i < |s| ==> !Less(key(x), key(s[i]))
    ensures SortedBy(s + [x], key)
  {}

  lemma {:induction false} SortSorts<T>(s: seq<T>, key: T -> SortKey)
    ensures SortedBy(SortBy(s, key), key)
    decreases |s|
  {
    if s != [] {
      SortSorts(s[..|s| - 1], key);
      InsertSorts(SortBy(s[..|s| - 1], key), s[|s| - 1], key);
    }
  }

  lemma SortHasTheSame<T>(s: seq<T>, key: T -> SortKey)
    ensures |SortBy(s, key)| == |s| && forall x :: x in SortBy(s, key) <==> x in s
  {
    SortKeeps(s, key);
    assert |multiset(SortBy(s, key))| == |SortBy(s, key)| && |multiset(s)| == |s|;
    forall x ensures x in SortBy(s, key) <==> x in s {
      assert x in SortBy(s, key) <==> x in multiset(SortBy(s, key));
      assert x in s <==> x in multiset(s);
    }
  }

  lemma SortDistinct<T>(s: seq<T>, key: T -> SortKey)
    requires Distinct(s)
    ensures Distinct(SortBy(s, key))
  {
    SortKeeps(s, key);
    SameElementsDistinct(s, SortBy(s, key));
  }

  /** Elements told apart by their keys have only one sorted order. */
  lemma {:induction false} SortedIsUnique<T>(a: seq<T>, b: seq<T>, key: T -> SortKey)
    requires SortedBy(a, key) && SortedBy(b, key) && multiset(a) == multiset(b)
    requires forall x, y :: x in a && y in a && key(x) == key(y) ==> x == y
    ensures a == b
    decreases |a|
  {
    assert |a| == |multiset(a)| == |multiset(b)| == |b|;
    if a != [] {
      var n := |a| - 1;
      var x, y := a[n], b[n];
      assert x in multiset(b) && y in multiset(a);
      LastIsGreatest(a, y, key);
      LastIsGreatest(b, x, key);
      LessIsStrict(key(x), key(y));
      SameWithoutLast(a, b);
      SortedIsUnique(a[..n], b[..n], key);
      InitAndLast(a);
      InitAndLast(b);
    }
  }

  lemma SameWithoutLast<T>(a: seq<T>, b: seq<T>)
    requires a != [] && |a| == |b| && a[|a| - 1] == b[|b| - 1] && multiset(a) == multiset(b)
    ensures multiset(a[..|a| - 1]) == multiset(b[..|b| - 1])
    ensures forall x :: x in a[..|a| - 1] ==> x in a
  {
    InitAndLast(a);
    InitAndLast(b);
    var last := multiset{a[|a| - 1]};
    assert multiset(a[..|a| - 1]) == multiset(a) - last;
    assert multiset(b[..|b| - 1]) == multiset(b) - last;
  }

  lemma LastIsGreatest<T>(s: seq<T>, x: T, key: T -> SortKey)
    requires s != [] && SortedBy(s, key) && x in s
    ensures !Less(key(s[|s| - 1]), key(x))
  {
    var i :| 0 <= i < |s| && s[i] == x;
    LessIsStrict(key(x), key(x));
  }

  // ----- text order on pieces of equal length -----

  /** Strings that begin with pieces of equal length are ordered by those pieces first. */
  lemma {:induction false} BeforeByPieces(a: string, b: string, x: string, y: string)
    requires |a| == |b|
    ensures Before(a + x, b + y) <==> Before(a, b) || (a == b && Before(x, y))
  {
    if a == "" {
      assert a + x == x && b + y == y;
    } else {
      BeforeByPieces(a[1..], b[1..], x, y);
      DropOfAppend(a, x, 1);
      DropOfAppend(b, y, 1);
      assert (a + x)[0] == a[0] && (b + y)[0] == b[0];
      assert a == [a[0]] + a[1..] && b == [b[0]] + b[1..];
    }
  }
}
