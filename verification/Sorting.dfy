/** What sort.Slice and sort.Strings promise, with an insertion sort that keeps it. */
module Sorting {

  ghost predicate TotalPreorder<T(!new)>(le: (T, T) -> bool) {
    && (forall x, y :: le(x, y) || le(y, x))
    && (forall x, y, z :: le(x, y) && le(y, z) ==> le(x, z))
  }

  ghost predicate Antisymmetric<T(!new)>(le: (T, T) -> bool) {
    forall x, y :: le(x, y) && le(y, x) ==> x == y
  }

  ghost predicate Sorted<T(!new)>(le: (T, T) -> bool, s: seq<T>) {
    forall i, j :: 0 <= i < j < |s| ==> le(s[i], s[j])
  }

  method Sort<T(!new)>(le: (T, T) -> bool, s: seq<T>) returns (out: seq<T>)
    requires TotalPreorder(le)
    ensures Sorted(le, out)
    ensures multiset(out) == multiset(s)
  {
    out := [];
    for k := 0 to |s|
      invariant Sorted(le, out)
      invariant multiset(out) == multiset(s[..k])
    {
      var at := 0;
      while at < |out| && le(out[at], s[k])
        invariant 0 <= at <= |out|
        invariant forall i :: 0 <= i < at ==> le(out[i], s[k])
      {
        at := at + 1;
      }
      InsertKeepsSorted(le, out, s[k], at);
      assert out == out[..at] + out[at..];
      assert s[..k + 1] == s[..k] + [s[k]];
      out := out[..at] + [s[k]] + out[at..];
    }
    assert s[..|s|] == s;
  }

  lemma InsertKeepsSorted<T(!new)>(le: (T, T) -> bool, s: seq<T>, x: T, at: nat)
    requires TotalPreorder(le) && Sorted(le, s) && at <= |s|
    requires forall i :: 0 <= i < at ==> le(s[i], x)
    requires at < |s| ==> !le(s[at], x)
    ensures Sorted(le, s[..at] + [x] + s[at..])
  {
    forall j | at <= j < |s|
      ensures le(x, s[j])
    {
      assert le(x, s[at]);
      assert at < j ==> le(s[at], s[j]);
    }
  }

  /** Under an antisymmetric order, sorting forgets the order its input came in. */
  lemma {:induction false} SortedUnique<T(!new)>(le: (T, T) -> bool, a: seq<T>, b: seq<T>)
    requires (forall x :: le(x, x)) && Antisymmetric(le)
    requires Sorted(le, a) && Sorted(le, b) && multiset(a) == multiset(b)
    ensures a == b
  {
    SameLength(a, b);
    if a != [] {
      var n := |a| - 1;
      LastsEqual(le, a, b);
      DropLast(a);
      DropLast(b);
      SortedUnique(le, a[..n], b[..n]);
    }
  }

  lemma SameLength<T>(a: seq<T>, b: seq<T>)
    requires multiset(a) == multiset(b)
    ensures |a| == |b|
  {
    assert |a| == |multiset(a)| == |multiset(b)| == |b|;
  }

  lemma DropLast<T>(s: seq<T>)
    requires s != []
    ensures multiset(s[..|s| - 1]) == multiset(s) - multiset{s[|s| - 1]}
    ensures s == s[..|s| - 1] + [s[|s| - 1]]
  {
    assert s == s[..|s| - 1] + [s[|s| - 1]];
  }

  lemma LastsEqual<T(!new)>(le: (T, T) -> bool, a: seq<T>, b: seq<T>)
    requires (forall x :: le(x, x)) && Antisymmetric(le)
    requires Sorted(le, a) && Sorted(le, b) && multiset(a) == multiset(b)
    requires a != [] && b != []
    ensures a[|a| - 1] == b[|b| - 1]
  {
    assert a[|a| - 1] in multiset(a) && b[|b| - 1] in multiset(b);
    LastIsTop(le, a, b[|b| - 1]);
    LastIsTop(le, b, a[|a| - 1]);
  }

  lemma LastIsTop<T(!new)>(le: (T, T) -> bool, s: seq<T>, x: T)
    requires (forall y :: le(y, y)) && Sorted(le, s) && x in multiset(s)
    ensures le(x, s[|s| - 1])
  {
    var i :| 0 <= i < |s| && s[i] == x;
  }

  // ---- The sorted order as a function

  function Insert<T>(le: (T, T) -> bool, s: seq<T>, x: T): seq<T> {
    if s == [] || !le(s[0], x) then [x] + s else [s[0]] + Insert(le, s[1..], x)
  }

  function SortedBy<T>(le: (T, T) -> bool, s: seq<T>): seq<T> {
    if s == [] then [] else Insert(le, SortedBy(le, s[..|s| - 1]), s[|s| - 1])
  }

  lemma {:induction false} InsertMeans<T(!new)>(le: (T, T) -> bool, s: seq<T>, x: T)
    requires TotalPreorder(le) && Sorted(le, s)
    ensures Sorted(le, Insert(le, s, x)) && multiset(Insert(le, s, x)) == multiset(s) + multiset{x}
  {
    if s == [] || !le(s[0], x) {
      InsertKeepsSorted(le, s, x, 0);
      assert s[..0] + [x] + s[0..] == [x] + s;
    } else {
      InsertMeans(le, s[1..], x);
      assert s == [s[0]] + s[1..];
      var rest := Insert(le, s[1..], x);
      forall i | 0 <= i < |rest|
        ensures le(s[0], rest[i])
      {
        assert rest[i] in multiset(rest);
        assert rest[i] == x || rest[i] in s[1..];
      }
    }
  }

  lemma {:induction false} SortedByMeans<T(!new)>(le: (T, T) -> bool, s: seq<T>)
    requires TotalPreorder(le)
    ensures Sorted(le, SortedBy(le, s)) && multiset(SortedBy(le, s)) == multiset(s)
  {
    hide Insert;
    if s != [] {
      var n := |s| - 1;
      SortedByMeans(le, s[..n]);
      InsertMeans(le, SortedBy(le, s[..n]), s[n]);
      assert s == s[..n] + [s[n]];
    }
  }
}
