/** Functions and lemmas on sequences that the other modules share. */
module Seqs {

  datatype Option<+T> = None | Some(value: T)

  function FirstIndices(n: nat): seq<nat> {
    seq(n, i requires 0 <= i < n => i)
  }

  /** The elements of `s` that satisfy `f`, in their order. */
  function Filter<T>(s: seq<T>, f: T -> bool): (r: seq<T>)
    ensures forall x :: x in r ==> x in s && f(x)
  {
    if s == [] then []
    else if f(s[0]) then [s[0]] + Filter(s[1..], f)
    else Filter(s[1..], f)
  }

  function Reverse<T>(s: seq<T>): (r: seq<T>)
    ensures |r| == |s|
    ensures forall k :: 0 <= k < |s| ==> r[k] == s[|s| - 1 - k]
  {
    seq(|s|, k requires 0 <= k < |s| => s[|s| - 1 - k])
  }

  function Concat<T>(ss: seq<seq<T>>): seq<T> {
    if ss == [] then [] else ss[0] + Concat(ss[1..])
  }

  lemma {:induction false} FilterAppend<T>(s: seq<T>, t: seq<T>, f: T -> bool)
    ensures Filter(s + t, f) == Filter(s, f) + Filter(t, f)
  {
    if s == [] {
      assert s + t == t;
    } else {
      assert (s + t)[1..] == s[1..] + t;
      FilterAppend(s[1..], t, f);
    }
  }

  lemma FilterHead<T>(x: T, rest: seq<T>, f: T -> bool)
    ensures Filter([x] + rest, f) == if f(x) then [x] + Filter(rest, f) else Filter(rest, f)
  {
  }

  lemma {:induction false} FilterAll<T>(s: seq<T>, f: T -> bool)
    requires forall x :: x in s ==> f(x)
    ensures Filter(s, f) == s
  {
    if s != [] {
      FilterAll(s[1..], f);
    }
  }

  lemma {:induction false} FilterNone<T>(s: seq<T>, f: T -> bool)
    requires forall x :: x in s ==> !f(x)
    ensures Filter(s, f) == []
  {
    if s != [] {
      FilterNone(s[1..], f);
    }
  }

  /** Filtering out all but a stretch of positions leaves that stretch. */
  lemma {:induction false} FilterSlice<T>(s: seq<T>, lo: nat, hi: nat, f: T -> bool)
    requires lo <= hi <= |s|
    requires forall k :: 0 <= k < |s| ==> (f(s[k]) <==> lo <= k < hi)
    ensures Filter(s, f) == s[lo..hi]
  {
    if hi > 0 {
      var rest := s[1..];
      var from := if lo > 0 then lo - 1 else 0;
      assert forall k :: 0 <= k < |rest| ==> rest[k] == s[k + 1];
      FilterSlice(rest, from, hi - 1, f);
      assert rest[from..hi - 1] == s[from + 1..hi];
      if lo == 0 {
        assert s[..hi] == [s[0]] + s[1..hi];
      }
    } else {
      FilterNone(s, f);
    }
  }

  lemma {:induction false} FilterSame<T>(s: seq<T>, f: T -> bool, g: T -> bool)
    requires forall x :: x in s ==> f(x) == g(x)
    ensures Filter(s, f) == Filter(s, g)
  {
    if s != [] {
      FilterSame(s[1..], f, g);
    }
  }

  ghost function Both<T>(f: T -> bool, g: T -> bool): T -> bool {
    x => f(x) && g(x)
  }

  ghost function Either<T>(f: T -> bool, g: T -> bool): T -> bool {
    x => f(x) || g(x)
  }

  lemma {:induction false} FilterTwice<T>(s: seq<T>, f: T -> bool, g: T -> bool)
    ensures Filter(Filter(s, f), g) == Filter(s, Both(f, g))
  {
    if s != [] {
      FilterTwice(s[1..], f, g);
    }
  }

  /** When no `f` follows a `g`, the `f`s and then the `g`s are all of them in their order. */
  lemma {:induction false} FilterInTurn<T>(s: seq<T>, f: T -> bool, g: T -> bool)
    requires forall i, j :: 0 <= i <= j < |s| && g(s[i]) ==> !f(s[j])
    ensures Filter(s, f) + Filter(s, g) == Filter(s, Either(f, g))
  {
    if s != [] {
      if g(s[0]) {
        FilterNone(s, f);
        FilterSame(s, g, Either(f, g));
      } else {
        FilterInTurn(s[1..], f, g);
      }
    }
  }

  lemma {:induction false} FilterKeepsMembers<T>(s: seq<T>, f: T -> bool, x: T)
    requires x in s && f(x)
    ensures x in Filter(s, f)
  {
    if s[0] != x {
      FilterKeepsMembers(s[1..], f, x);
    }
  }

  /** Where the elements that are kept stand. */
  lemma {:induction false} FilterPlaces<T>(s: seq<T>, f: T -> bool) returns (places: seq<nat>)
    ensures |places| == |Filter(s, f)|
    ensures forall i :: 0 <= i < |places| ==> places[i] < |s| && Filter(s, f)[i] == s[places[i]]
    ensures forall i, j :: 0 <= i < j < |places| ==> places[i] < places[j]
  {
    places := [];
    if s != [] {
      var later := FilterPlaces(s[1..], f);
      places := (if f(s[0]) then [0] else []) + seq(|later|, i requires 0 <= i < |later| => later[i] + 1);
    }
  }

  lemma {:induction false} FilterReverse<T>(s: seq<T>, f: T -> bool)
    ensures Filter(Reverse(s), f) == Reverse(Filter(s, f))
  {
    if s != [] {
      FilterReverse(s[1..], f);
      assert Reverse(s) == Reverse(s[1..]) + [s[0]];
      assert Reverse([s[0]] + Filter(s[1..], f)) == Reverse(Filter(s[1..], f)) + [s[0]];
      FilterAppend(Reverse(s[1..]), [s[0]], f);
    }
  }

  lemma ReverseAppend<T>(s: seq<T>, t: seq<T>)
    ensures Reverse(s + t) == Reverse(t) + Reverse(s)
  {
  }

  lemma ConcatFrom<T>(ss: seq<seq<T>>, k: nat)
    requires k < |ss|
    ensures Concat(ss[k..]) == ss[k] + Concat(ss[k + 1..])
  {
  }

  lemma AppendHead<T>(s: seq<T>, t: seq<T>)
    requires s != []
    ensures (s + t)[0] == s[0] && (s + t)[1..] == s[1..] + t
  {
  }

  lemma {:induction false} ConcatAppend<T>(ss: seq<seq<T>>, tt: seq<seq<T>>)
    ensures Concat(ss + tt) == Concat(ss) + Concat(tt)
  {
    if ss == [] {
      assert ss + tt == tt;
    } else {
      assert (ss + tt)[1..] == ss[1..] + tt;
      ConcatAppend(ss[1..], tt);
    }
  }

  /** The parts in reverse order, each reversed. */
  function ReverseParts<T>(ss: seq<seq<T>>): (r: seq<seq<T>>)
    ensures |r| == |ss| && forall i :: 0 <= i < |ss| ==> r[i] == Reverse(ss[|ss| - 1 - i])
  {
    if ss == [] then [] else ReverseParts(ss[1..]) + [Reverse(ss[0])]
  }

  /** Reversing a concatenation reverses the parts and their order. */
  lemma {:induction false} ReverseConcat<T>(ss: seq<seq<T>>)
    ensures Reverse(Concat(ss)) == Concat(ReverseParts(ss))
  {
    if ss != [] {
      ReverseConcat(ss[1..]);
      ReverseAppend(ss[0], Concat(ss[1..]));
      ConcatAppend(ReverseParts(ss[1..]), [Reverse(ss[0])]);
      assert Concat([Reverse(ss[0])]) == Reverse(ss[0]) + Concat([]);
    }
  }
}
