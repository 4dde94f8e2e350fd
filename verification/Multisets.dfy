/** Sequences taken as multisets: what does not depend on the order of rows. */
module Multisets {
  import opened Seqs

  /** The images of the elements, one for one. */
  function Image<T, U>(s: seq<T>, f: T -> U): (r: seq<U>)
    ensures |r| == |s| && forall i :: 0 <= i < |s| ==> r[i] == f(s[i])
  {
    seq(|s|, i requires 0 <= i < |s| => f(s[i]))
  }

  lemma Without<T>(s: seq<T>, k: nat)
    requires k < |s|
    ensures multiset(s) == multiset(s[..k] + s[k + 1..]) + multiset{s[k]}
    ensures multiset(s[..k] + s[k + 1..]) == multiset(s) - multiset{s[k]}
  {
    assert s == s[..k] + [s[k]] + s[k + 1..];
  }

  lemma First<T>(s: seq<T>)
    requires s != []
    ensures multiset(s) == multiset{s[0]} + multiset(s[1..]) && multiset(s[1..]) == multiset(s) - multiset{s[0]}
  {
    assert s == [s[0]] + s[1..];
  }

  lemma PositionOf<T>(a: seq<T>, b: seq<T>) returns (k: nat)
    requires multiset(a) == multiset(b) && a != []
    ensures k < |b| && b[k] == a[0]
  {
    assert a[0] in multiset(b);
    k :| 0 <= k < |b| && b[k] == a[0];
  }

  lemma WithoutFirst<T>(a: seq<T>, b: seq<T>, k: nat)
    requires multiset(a) == multiset(b) && a != [] && k < |b| && b[k] == a[0]
    ensures multiset(a[1..]) == multiset(b[..k] + b[k + 1..])
  {
    First(a);
    Without(b, k);
  }

  lemma SameLength<T>(a: seq<T>, b: seq<T>)
    requires multiset(a) == multiset(b)
    ensures |a| == |b|
  {
    assert |a| == |multiset(a)| == |multiset(b)| == |b|;
  }

  lemma {:induction false} ReverseMultiset<T>(s: seq<T>)
    ensures multiset(Reverse(s)) == multiset(s)
  {
    if s != [] {
      ReverseMultiset(s[1..]);
      assert s == [s[0]] + s[1..] && Reverse(s) == Reverse(s[1..]) + [s[0]];
    }
  }

  lemma {:induction false} FilterMultiset<T>(s: seq<T>, f: T -> bool, x: T)
    ensures multiset(Filter(s, f))[x] == if f(x) then multiset(s)[x] else 0
  {
    if s != [] {
      FilterMultiset(s[1..], f, x);
      assert s == [s[0]] + s[1..];
    }
  }

  lemma FilterSameMultiset<T(!new)>(a: seq<T>, b: seq<T>, f: T -> bool)
    requires multiset(a) == multiset(b)
    ensures multiset(Filter(a, f)) == multiset(Filter(b, f))
  {
    forall x: T ensures multiset(Filter(a, f))[x] == multiset(Filter(b, f))[x] {
      FilterMultiset(a, f, x);
      FilterMultiset(b, f, x);
    }
  }

  lemma ImageWithout<T, U>(s: seq<T>, k: nat, f: T -> U)
    requires k < |s|
    ensures multiset(Image(s, f)) == multiset(Image(s[..k] + s[k + 1..], f)) + multiset{f(s[k])}
  {
    var images := Image(s, f);
    assert images[..k] + images[k + 1..] == Image(s[..k] + s[k + 1..], f);
    Without(images, k);
  }

  lemma ImageFirst<T, U>(s: seq<T>, f: T -> U)
    requires s != []
    ensures multiset(Image(s, f)) == multiset{f(s[0])} + multiset(Image(s[1..], f))
  {
    assert Image(s, f) == [f(s[0])] + Image(s[1..], f);
  }

  lemma {:induction false} ImageSameMultiset<T, U>(a: seq<T>, b: seq<T>, f: T -> U)
    requires multiset(a) == multiset(b)
    ensures multiset(Image(a, f)) == multiset(Image(b, f))
    decreases |a|
  {
    hide Image;
    SameLength(a, b);
    if a == [] {
      assert b == [];
    } else {
      var k := PositionOf(a, b);
      var rest := b[..k] + b[k + 1..];
      assert multiset(a[1..]) == multiset(rest) by {
        WithoutFirst(a, b, k);
      }
      ImageSameMultiset(a[1..], rest, f);
      ImageFirst(a, f);
      ImageWithout(b, k, f);
    }
  }

  /** No element twice. */
  predicate NoRepeats<T(==)>(s: seq<T>) {
    forall i, j :: 0 <= i < j < |s| ==> s[i] != s[j]
  }

  lemma {:induction false} CountOfNoRepeats<T>(s: seq<T>, x: T)
    requires NoRepeats(s)
    ensures multiset(s)[x] == if x in s then 1 else 0
  {
    if s != [] {
      var (init, last) := (s[..|s| - 1], s[|s| - 1]);
      assert s == init + [last];
      CountOfNoRepeats(init, x);
    }
  }

  /** Without repeats the members are everything. */
  lemma SameMembers<T(!new)>(a: seq<T>, b: seq<T>)
    requires NoRepeats(a) && NoRepeats(b) && forall x :: x in a <==> x in b
    ensures multiset(a) == multiset(b)
  {
    forall x: T ensures multiset(a)[x] == multiset(b)[x] {
      CountOfNoRepeats(a, x);
      CountOfNoRepeats(b, x);
    }
  }

  /** The elements without repeats, in the order of their first occurrences. */
  function Distinct<T(==)>(s: seq<T>): (r: seq<T>)
    ensures NoRepeats(r) && (forall i :: 0 <= i < |s| ==> s[i] in r) && forall i :: 0 <= i < |r| ==> r[i] in s
  {
    if s == [] then []
    else
      var (init, last) := (Distinct(s[..|s| - 1]), s[|s| - 1]);
      if last in init then init else init + [last]
  }

  /** Parts in another order, each with its elements in another order, have the same elements together. */
  lemma {:induction false} ConcatSameMultiset<T>(ss: seq<seq<T>>, tt: seq<seq<T>>)
    requires |ss| == |tt| && forall i :: 0 <= i < |ss| ==> multiset(ss[i]) == multiset(tt[i])
    ensures multiset(Concat(ss)) == multiset(Concat(tt))
  {
    if ss != [] {
      ConcatSameMultiset(ss[1..], tt[1..]);
    }
  }

  lemma {:induction false} ConcatReverseMultiset<T>(ss: seq<seq<T>>)
    ensures multiset(Concat(Reverse(ss))) == multiset(Concat(ss))
  {
    if ss != [] {
      ConcatReverseMultiset(ss[1..]);
      assert Reverse(ss) == Reverse(ss[1..]) + [ss[0]];
      ConcatAppend(Reverse(ss[1..]), [ss[0]]);
      assert Concat([ss[0]]) == ss[0] + Concat([]);
    }
  }
}
