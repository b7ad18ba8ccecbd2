/** Facts about sequences that several modules share. */
module Sequences {

  function Min(a: int, b: int): int { if a < b then a else b }

  /** Where Python's s[:n] ends and s[n:] starts in a sequence of this length; a negative n counts from the end. */
  function SliceIndex(n: int, length: nat): (i: nat)
    ensures i <= length
  {
    if n >= 0 then Min(n, length) else if length + n < 0 then 0 else length + n
  }

  /** Joins a list of byte strings. */
  function Flatten<T>(parts: seq<seq<T>>): seq<T> {
    if parts == [] then [] else parts[0] + Flatten(parts[1..])
  }

  lemma {:induction false} FlattenAppend<T>(a: seq<seq<T>>, b: seq<seq<T>>)
    ensures Flatten(a + b) == Flatten(a) + Flatten(b)
  {
    if a == [] {
      assert a + b == b;
    } else {
      assert (a + b)[1..] == a[1..] + b;
      FlattenAppend(a[1..], b);
    }
  }

  lemma FlattenSnoc<T>(a: seq<seq<T>>, x: seq<T>)
    ensures Flatten(a + [x]) == Flatten(a) + x
  {
    FlattenAppend(a, [x]);
    assert Flatten([x]) == x + Flatten([]);
  }

  lemma FlattenOne<T>(x: seq<T>)
    ensures Flatten([x]) == x
  {
    assert Flatten([x]) == x + Flatten([]);
  }

  lemma Regroup<T>(a: seq<T>, b: seq<T>, c: seq<T>)
    ensures a + (b + c) == (a + b) + c
  {
  }

  ghost predicate Distinct<T>(s: seq<T>) {
    forall i, j :: 0 <= i < j < |s| ==> s[i] != s[j]
  }

  /** The position of the first occurrence of x. */
  function IndexOf<T(==)>(s: seq<T>, x: T): (i: nat)
    requires x in s
    ensures i < |s| && s[i] == x && x !in s[..i]
  {
    if s[0] == x then 0 else 1 + IndexOf(s[1..], x)
  }

  function DeleteAt<T>(s: seq<T>, i: nat): (r: seq<T>)
    requires i < |s|
    ensures |r| == |s| - 1
  {
    s[..i] + s[i + 1..]
  }

  /** Python's list.remove: drops the first occurrence, if there is one. */
  function RemoveFirst<T(==)>(s: seq<T>, x: T): seq<T> {
    if x in s then DeleteAt(s, IndexOf(s, x)) else s
  }

  lemma RemoveFirstDistinct<T>(s: seq<T>, x: T)
    requires Distinct(s)
    ensures Distinct(RemoveFirst(s, x))
    ensures forall y :: y in RemoveFirst(s, x) <==> y in s && y != x
  {
    if x in s {
      var i := IndexOf(s, x);
      hide IndexOf, DeleteAt, Distinct;
      DeletedDistinct(s, i);
      DeletedMembers(s, i);
    }
  }

  lemma DeletedDistinct<T>(s: seq<T>, i: nat)
    requires i < |s| && Distinct(s)
    ensures Distinct(DeleteAt(s, i))
  {
    var r := DeleteAt(s, i);
    forall j, k | 0 <= j < k < |r| ensures r[j] != r[k] {
      assert r[j] == s[if j < i then j else j + 1] && r[k] == s[if k < i then k else k + 1];
    }
  }

  lemma DeletedMembers<T>(s: seq<T>, i: nat)
    requires i < |s| && Distinct(s)
    ensures forall y :: y in DeleteAt(s, i) <==> y in s && y != s[i]
  {
    var r := DeleteAt(s, i);
    forall y | y in s && y != s[i] ensures y in r {
      var k :| 0 <= k < |s| && s[k] == y;
      assert r[if k < i then k else k - 1] == y;
    }
    forall y | y in r ensures y in s && y != s[i] {
      var k :| 0 <= k < |r| && r[k] == y;
      assert r[k] == s[if k < i then k else k + 1];
    }
  }

  lemma RemoveFirstAbsent<T>(s: seq<T>, x: T)
    requires x !in s
    ensures RemoveFirst(s, x) == s
  {
  }

  lemma RemoveFirstCons<T>(s: seq<T>, x: T)
    requires s != [] && x in s
    ensures RemoveFirst(s, x) == if s[0] == x then s[1..] else [s[0]] + RemoveFirst(s[1..], x)
  {
    if s[0] != x {
      var i := IndexOf(s[1..], x);
      assert IndexOf(s, x) == 1 + i;
      hide IndexOf;
      assert DeleteAt(s, 1 + i) == [s[0]] + DeleteAt(s[1..], i);
    }
  }

  /** a is obtained from b by deleting elements. */
  predicate Subsequence<T(==)>(a: seq<T>, b: seq<T>) {
    a == [] || (b != [] && ((a[0] == b[0] && Subsequence(a[1..], b[1..])) || Subsequence(a, b[1..])))
  }

  lemma {:induction false} SubsequenceRefl<T>(a: seq<T>)
    ensures Subsequence(a, a)
  {
    if a != [] { SubsequenceRefl(a[1..]); }
  }

  lemma {:induction false} SubsequenceDelete<T>(a: seq<T>, b: seq<T>, i: nat)
    requires i < |a| && Subsequence(a, b)
    ensures Subsequence(DeleteAt(a, i), b)
    decreases |b|
  {
    if a[0] == b[0] && Subsequence(a[1..], b[1..]) {
      if i == 0 {
        assert DeleteAt(a, 0) == a[1..];
        SubsequenceWeaken(a[1..], b);
      } else {
        SubsequenceDelete(a[1..], b[1..], i - 1);
        assert DeleteAt(a, i)[1..] == DeleteAt(a[1..], i - 1);
      }
    } else {
      SubsequenceDelete(a, b[1..], i);
    }
  }

  lemma SubsequenceWeaken<T>(a: seq<T>, b: seq<T>)
    requires b != [] && Subsequence(a, b[1..])
    ensures Subsequence(a, b)
  {
  }
}
