/** Slices of concatenations, and lists without repetitions grown in order of first appearance. */
module Sequences {
  lemma Assoc<T>(a: seq<T>, b: seq<T>, c: seq<T>)
    ensures a + b + c == a + (b + c)
  {}

  lemma InitOfAppend<T>(a: seq<T>, b: seq<T>)
    requires b != []
    ensures (a + b)[..|a + b| - 1] == a + b[..|b| - 1] && (a + b)[|a + b| - 1] == b[|b| - 1]
  {}

  lemma DropOfAppend<T>(a: seq<T>, b: seq<T>, n: nat)
    requires n <= |a|
    ensures (a + b)[n..] == a[n..] + b
  {}

  lemma DropOfTake<T>(s: seq<T>, n: nat, w: nat)
    requires n <= w <= |s|
    ensures s[..w][n..] == s[n..][..w - n] == s[n..w]
  {}

  lemma TakeOfAppend<T>(a: seq<T>, b: seq<T>, k: nat)
    requires k <= |b|
    ensures (a + b)[..|a| + k] == a + b[..k]
  {}

  lemma DropDrop<T>(s: seq<T>, n: nat, k: nat)
    requires n + k <= |s|
    ensures s[n..][k..] == s[n + k..]
  {}

  lemma TakeSplit<T>(s: seq<T>, n: nat, k: nat)
    requires n + k <= |s|
    ensures s[..n + k] == s[..n] + s[n..][..k]
  {}

  lemma TakeAndDrop<T>(s: seq<T>, n: nat)
    requires n <= |s|
    ensures s == s[..n] + s[n..]
  {}

  lemma InAppend<T>(a: seq<T>, b: seq<T>, x: T)
    ensures x in a + b <==> x in a || x in b
  {}

  predicate PartAt<T(==)>(s: seq<T>, part: seq<T>, i: nat) {
    i + |part| <= |s| && s[i..i + |part|] == part
  }

  /** `part in s`, for strings. */
  predicate Contains<T(==)>(s: seq<T>, part: seq<T>) {
    exists i :: 0 <= i <= |s| && PartAt(s, part, i)
  }

  lemma InitAndLast<T>(s: seq<T>)
    requires s != []
    ensures s == s[..|s| - 1] + [s[|s| - 1]]
  {}

  ghost predicate Distinct<T>(s: seq<T>) {
    forall i, j :: 0 <= i < j < |s| ==> s[i] != s[j]
  }

  /** `have`, and then each new element of `found` once, in order. */
  function AddNew<T(==)>(have: seq<T>, found: seq<T>): seq<T> {
    if found == [] then have
    else
      var before, x := AddNew(have, found[..|found| - 1]), found[|found| - 1];
      if x in before then before else before + [x]
  }

  function Firsts<T(==)>(s: seq<T>): seq<T> {
    AddNew([], s)
  }

  lemma {:induction false} AddNewAppend<T>(have: seq<T>, a: seq<T>, b: seq<T>)
    ensures AddNew(have, a + b) == AddNew(AddNew(have, a), b)
  {
    if b == [] {
      assert a + b == a;
    } else {
      AddNewAppend(have, a, b[..|b| - 1]);
      assert (a + b)[..|a + b| - 1] == a + b[..|b| - 1];
    }
  }

  /** Known elements stay in place, none is lost, and none is repeated. */
  lemma {:induction false} AddNewKeeps<T>(have: seq<T>, found: seq<T>)
    ensures have <= AddNew(have, found)
    ensures forall x :: x in AddNew(have, found) <==> x in have || x in found
    ensures Distinct(have) ==> Distinct(AddNew(have, found))
  {
    if found != [] {
      AddNewKeeps(have, found[..|found| - 1]);
      assert found == found[..|found| - 1] + [found[|found| - 1]];
    }
  }

  lemma {:induction false} NothingNew<T>(have: seq<T>, found: seq<T>)
    requires forall x :: x in found ==> x in have
    ensures AddNew(have, found) == have
  {
    if found != [] {
      NothingNew(have, found[..|found| - 1]);
    }
  }

  lemma AddNewOne<T>(have: seq<T>, found: seq<T>, x: T)
    ensures AddNew(have, found + [x]) ==
            if x in AddNew(have, found) then AddNew(have, found) else AddNew(have, found) + [x]
  {
    assert (found + [x])[..|found|] == found;
  }

  lemma {:induction false} OnceEach<T>(s: seq<T>, x: T)
    requires Distinct(s)
    ensures multiset(s)[x] <= 1
  {
    if s != [] {
      var n := |s| - 1;
      OnceEach(s[..n], x);
      InitAndLast(s);
      if s[n] == x {
        assert x !in s[..n];
        assert multiset(s[..n])[x] == 0;
      }
    }
  }

  lemma TwicePresent<T>(s: seq<T>, i: nat, j: nat)
    requires i < j < |s| && s[i] == s[j]
    ensures multiset(s)[s[i]] >= 2
  {
    var front, back := s[..j], s[j..];
    assert s == front + back && front[i] == s[i] && back[0] == s[j];
    assert s[i] in multiset(front) && s[j] in multiset(back);
  }

  lemma SameElementsDistinct<T>(a: seq<T>, b: seq<T>)
    requires Distinct(a) && multiset(a) == multiset(b)
    ensures Distinct(b)
  {
    forall i, j | 0 <= i < j < |b| ensures b[i] != b[j] {
      OnceEach(a, b[i]);
      if b[i] == b[j] {
        TwicePresent(b, i, j);
      }
    }
  }
}
