/** Generic sequence helpers shared by the extractor and the exporter. */
module Seqs {

  /** Concatenation of a sequence of sequences, in order. */
  function Flatten<T>(ss: seq<seq<T>>): seq<T>
  {
    if |ss| == 0 then [] else ss[0] + Flatten(ss[1..])
  }

  /** `a` can be obtained from `b` by deleting elements (order is kept). */
  ghost predicate IsSubseq<T>(a: seq<T>, b: seq<T>)
    decreases |b|
  {
    |a| == 0 || (|b| > 0 && ((a[0] == b[0] && IsSubseq(a[1..], b[1..])) || IsSubseq(a, b[1..])))
  }

  lemma {:induction false} FlattenAppend<T>(a: seq<seq<T>>, b: seq<seq<T>>)
    ensures Flatten(a + b) == Flatten(a) + Flatten(b)
    decreases |a|
  {
    if |a| == 0 {
      assert a + b == b;
    } else {
      assert (a + b)[1..] == a[1..] + b;
      FlattenAppend(a[1..], b);
    }
  }

  /** Every element of a flattened sequence sits at some position of some
      part. */
  lemma {:induction false} FlattenMember<T>(ss: seq<seq<T>>, x: T) returns (b: nat, t: nat)
    requires x in Flatten(ss)
    ensures b < |ss| && t < |ss[b]| && ss[b][t] == x
    decreases |ss|
  {
    if x in ss[0] {
      b := 0;
      t :| 0 <= t < |ss[0]| && ss[0][t] == x;
    } else {
      var b', t' := FlattenMember(ss[1..], x);
      b, t := b' + 1, t';
    }
  }

  /** A flattened sequence is empty exactly when every part is empty. */
  lemma {:induction false} FlattenEmpty<T>(ss: seq<seq<T>>)
    ensures |Flatten(ss)| == 0 <==> forall b :: 0 <= b < |ss| ==> |ss[b]| == 0
    decreases |ss|
  {
    if |ss| > 0 {
      FlattenEmpty(ss[1..]);
      assert forall b :: 1 <= b < |ss| ==> ss[b] == ss[1..][b - 1];
    }
  }

  /** The elements of `s` that satisfy `keep`, in order. */
  function Filter<T(!new)>(s: seq<T>, keep: T -> bool): (r: seq<T>)
    ensures |r| <= |s|
    ensures forall x :: x in r <==> x in s && keep(x)
    decreases |s|
  {
    if |s| == 0 then []
    else
      var rest := Filter(s[1..], keep);
      assert forall x :: x in s <==> x == s[0] || x in s[1..];
      if keep(s[0]) then [s[0]] + rest else rest
  }

  /** Filtering keeps every wanted element as often as it occurs, and no
      other. */
  lemma {:induction false} FilterMultiset<T(!new)>(s: seq<T>, keep: T -> bool)
    ensures forall x :: multiset(Filter(s, keep))[x] == (if keep(x) then multiset(s)[x] else 0)
    decreases |s|
  {
    if |s| > 0 {
      FilterMultiset(s[1..], keep);
      assert s == [s[0]] + s[1..];
    }
  }

  /** Filtering only deletes: what is kept is a subsequence. */
  lemma {:induction false} FilterSubseq<T(!new)>(s: seq<T>, keep: T -> bool)
    ensures IsSubseq(Filter(s, keep), s)
    decreases |s|
  {
    if |s| > 0 {
      var rest := Filter(s[1..], keep);
      FilterSubseq(s[1..], keep);
      if keep(s[0]) {
        assert ([s[0]] + rest)[1..] == rest;
      }
    }
  }

  lemma {:induction false} FilterAppend<T(!new)>(a: seq<T>, b: seq<T>, keep: T -> bool)
    ensures Filter(a + b, keep) == Filter(a, keep) + Filter(b, keep)
    decreases |a|
  {
    if |a| == 0 {
      assert a + b == b;
    } else {
      assert (a + b)[1..] == a[1..] + b;
      FilterAppend(a[1..], b, keep);
    }
  }

  /** Filtering the concatenation filters each part. */
  lemma {:induction false} FilterFlatten<T(!new)>(ss: seq<seq<T>>, keep: T -> bool)
    ensures Filter(Flatten(ss), keep) == Flatten(seq(|ss|, b requires 0 <= b < |ss| => Filter(ss[b], keep)))
    decreases |ss|
  {
    var fs := seq(|ss|, b requires 0 <= b < |ss| => Filter(ss[b], keep));
    if |ss| > 0 {
      FilterFlatten(ss[1..], keep);
      FilterAppend(ss[0], Flatten(ss[1..]), keep);
      assert fs[1..] == seq(|ss[1..]|, b requires 0 <= b < |ss[1..]| => Filter(ss[1..][b], keep));
    }
  }

  /** Keeping every element changes nothing. */
  lemma {:induction false} FilterAll<T(!new)>(s: seq<T>, keep: T -> bool)
    requires forall x :: x in s ==> keep(x)
    ensures Filter(s, keep) == s
    decreases |s|
  {
    if |s| > 0 {
      assert s[0] in s;
      FilterAll(s[1..], keep);
    }
  }

  /** Any two kept elements come from positions in the same order. */
  lemma {:induction false} FilterOrder<T(!new)>(s: seq<T>, keep: T -> bool, i: int, j: int) returns (i': int, j': int)
    requires 0 <= i < j < |Filter(s, keep)|
    ensures 0 <= i' < j' < |s| && Filter(s, keep)[i] == s[i'] && Filter(s, keep)[j] == s[j']
    decreases |s|
  {
    var kept := Filter(s, keep);
    var rest := Filter(s[1..], keep);
    if keep(s[0]) {
      assert kept == [s[0]] + rest;
      if i == 0 {
        assert kept[j] == rest[j - 1];
        assert rest[j - 1] in s[1..];
        var m :| 0 <= m < |s[1..]| && s[1..][m] == rest[j - 1];
        i', j' := 0, m + 1;
      } else {
        var a, b := FilterOrder(s[1..], keep, i - 1, j - 1);
        i', j' := a + 1, b + 1;
      }
    } else {
      assert kept == rest;
      var a, b := FilterOrder(s[1..], keep, i, j);
      i', j' := a + 1, b + 1;
    }
  }

  /** `f` applied to every element, in order. */
  function Map<T, U>(s: seq<T>, f: T -> U): (r: seq<U>)
    ensures |r| == |s| && forall i :: 0 <= i < |s| ==> r[i] == f(s[i])
    decreases |s|
  {
    if |s| == 0 then [] else [f(s[0])] + Map(s[1..], f)
  }

  lemma {:induction false} MapAppend<T, U>(a: seq<T>, b: seq<T>, f: T -> U)
    ensures Map(a + b, f) == Map(a, f) + Map(b, f)
  {
  }

  /** `f` applied to every element, the results concatenated in order. */
  function ConcatMap<T, U>(s: seq<T>, f: T -> seq<U>): seq<U>
    decreases |s|
  {
    if |s| == 0 then [] else f(s[0]) + ConcatMap(s[1..], f)
  }

  lemma ConcatMapSingle<T, U>(x: T, f: T -> seq<U>)
    ensures ConcatMap([x], f) == f(x)
  {
    assert [x][1..] == [];
  }

  lemma {:induction false} ConcatMapAppend<T, U>(a: seq<T>, b: seq<T>, f: T -> seq<U>)
    ensures ConcatMap(a + b, f) == ConcatMap(a, f) + ConcatMap(b, f)
    decreases |a|
  {
    if |a| == 0 {
      assert a + b == b;
    } else {
      assert (a + b)[0] == a[0] && (a + b)[1..] == a[1..] + b;
      ConcatMapAppend(a[1..], b, f);
    }
  }
}
