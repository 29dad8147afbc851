/** Sequence helpers: `Array.prototype.filter` and the concatenation of a list of
 *  byte buffers into one. */
module Seqs {

  import opened Wrappers

  newtype Byte = x: int | 0 <= x < 256

  /** The contents of an `ArrayBuffer`. */
  type Bytes = seq<Byte>

  /** `s.filter(p)`. */
  function Filter<T>(s: seq<T>, p: T -> bool): (r: seq<T>)
    ensures |r| <= |s|
    ensures forall x :: x in r ==> x in s && p(x)
    decreases |s|
  {
    if s == [] then [] else (if p(s[0]) then [s[0]] else []) + Filter(s[1..], p)
  }

  /** Filtering a concatenation filters each part in place: the kept elements stay in
   *  their relative order. */
  lemma {:induction false} FilterAppend<T>(a: seq<T>, b: seq<T>, p: T -> bool)
    ensures Filter(a + b, p) == Filter(a, p) + Filter(b, p)
    decreases |a|
  {
    if a == [] {
      assert a + b == b;
    } else {
      assert (a + b)[1..] == a[1..] + b;
      FilterAppend(a[1..], b, p);
    }
  }

  /** Filtering with two predicates that agree on the elements gives the same result. */
  lemma {:induction false} FilterSame<T>(s: seq<T>, p: T -> bool, q: T -> bool)
    requires forall x :: x in s ==> p(x) == q(x)
    ensures Filter(s, p) == Filter(s, q)
    decreases |s|
  {
    if s != [] {
      FilterSame(s[1..], p, q);
    }
  }

  /** Every element of `s` that satisfies `p` is kept. */
  lemma {:induction false} FilterKeeps<T>(s: seq<T>, p: T -> bool, x: T)
    requires x in s && p(x)
    ensures x in Filter(s, p)
    decreases |s|
  {
    if s[0] != x {
      FilterKeeps(s[1..], p, x);
    }
  }

  /** Filtering with a predicate every element satisfies changes nothing. */
  lemma {:induction false} FilterAll<T>(s: seq<T>, p: T -> bool)
    requires forall i :: 0 <= i < |s| ==> p(s[i])
    ensures Filter(s, p) == s
    decreases |s|
  {
    if s != [] {
      FilterAll(s[1..], p);
    }
  }

  /** A last element that is kept stays last. */
  lemma FilterKeepsLast<T>(s: seq<T>, p: T -> bool)
    requires s != [] && p(s[|s| - 1])
    ensures Filter(s, p) != [] && Filter(s, p)[|Filter(s, p)| - 1] == s[|s| - 1]
  {
    var last := s[|s| - 1];
    assert s == s[..|s| - 1] + [last];
    FilterAppend(s[..|s| - 1], [last], p);
    assert Filter([last], p) == [last] + Filter([last][1..], p);
  }

  /** A first element that is kept stays first. */
  lemma FilterKeepsFirst<T>(s: seq<T>, p: T -> bool)
    requires s != [] && p(s[0])
    ensures Filter(s, p) != [] && Filter(s, p)[0] == s[0]
  {
  }

  /** Every element of `s` that satisfies `p` is kept, and nothing else is. */
  lemma FilterMembers<T>(s: seq<T>, p: T -> bool)
    ensures forall x :: x in Filter(s, p) <==> x in s && p(x)
  {
    forall x | x in s && p(x)
      ensures x in Filter(s, p)
    {
      FilterKeeps(s, p, x);
    }
  }

  /** `r` is `s` with some elements left out and the rest in their original order. */
  ghost predicate IsSubsequence<T>(r: seq<T>, s: seq<T>)
    decreases |s|
  {
    if r == [] then true
    else if s == [] then false
    else (r[0] == s[0] && IsSubsequence(r[1..], s[1..])) || IsSubsequence(r, s[1..])
  }

  /** Filtering keeps the relative order of what it keeps. */
  lemma {:induction false} FilterIsSubsequence<T>(s: seq<T>, p: T -> bool)
    ensures IsSubsequence(Filter(s, p), s)
    decreases |s|
  {
    if s != [] {
      FilterIsSubsequence(s[1..], p);
      var r := Filter(s, p);
      if p(s[0]) {
        assert r == [s[0]] + Filter(s[1..], p);
        assert r[0] == s[0] && r[1..] == Filter(s[1..], p);
      } else {
        assert r == Filter(s[1..], p);
      }
    }
  }

  lemma {:induction false} IsSubsequenceRefl<T>(s: seq<T>)
    ensures IsSubsequence(s, s)
    decreases |s|
  {
    if s != [] {
      IsSubsequenceRefl(s[1..]);
    }
  }

  /** `s.find(p)`: the first element that satisfies `p`. */
  function Find<T>(s: seq<T>, p: T -> bool): (r: Option<T>)
    ensures r.Some? ==> r.value in s && p(r.value)
    decreases |s|
  {
    if |s| == 0 then None
    else if p(s[0]) then Some(s[0])
    else Find(s[1..], p)
  }

  /** `find` answers the first match, and nothing when there is none. */
  lemma {:induction false} FindIsFirst<T>(s: seq<T>, p: T -> bool)
    ensures Find(s, p).None? <==> forall i :: 0 <= i < |s| ==> !p(s[i])
    ensures Find(s, p).Some? ==>
      exists i :: 0 <= i < |s| && Find(s, p) == Some(s[i])
                  && forall j :: 0 <= j < i ==> !p(s[j])
    decreases |s|
  {
    if |s| > 0 && !p(s[0]) {
      var rest := s[1..];
      FindIsFirst(rest, p);
      assert forall i :: 0 <= i < |rest| ==> rest[i] == s[i + 1];
      if Find(rest, p).Some? {
        var i :| 0 <= i < |rest| && Find(rest, p) == Some(rest[i])
                 && forall j :: 0 <= j < i ==> !p(rest[j]);
        assert Find(s, p) == Some(s[i + 1]);
        assert forall j :: 0 <= j < i + 1 ==> !p(s[j]) by {
          forall j | 0 <= j < i + 1
            ensures !p(s[j])
          {
            if j > 0 {
              assert s[j] == rest[j - 1];
            }
          }
        }
      } else {
        forall i | 0 <= i < |s|
          ensures !p(s[i])
        {
          if i > 0 {
            assert s[i] == rest[i - 1];
          }
        }
      }
    }
  }

  /** The last `Some` that `f` gives over `xs`, scanning from the end. */
  function LastSome<T, U>(xs: seq<T>, f: T -> Option<U>): Option<U>
    decreases |xs|
  {
    if xs == [] then None
    else if f(xs[|xs| - 1]).Some? then f(xs[|xs| - 1])
    else LastSome(xs[..|xs| - 1], f)
  }

  /** `LastSome` is `None` exactly when `f` gives `None` everywhere; otherwise it is the
   *  value at a position after which `f` gives only `None`. */
  lemma {:induction false} LastSomeIsLast<T, U>(xs: seq<T>, f: T -> Option<U>)
    ensures LastSome(xs, f).None? <==> forall i :: 0 <= i < |xs| ==> f(xs[i]).None?
    ensures LastSome(xs, f).Some? ==>
      exists i :: 0 <= i < |xs| && f(xs[i]) == LastSome(xs, f)
                  && forall j :: i < j < |xs| ==> f(xs[j]).None?
    decreases |xs|
  {
    if xs != [] {
      var init := xs[..|xs| - 1];
      LastSomeIsLast(init, f);
      assert forall i :: 0 <= i < |init| ==> init[i] == xs[i];
    }
  }

  /** Scanning one more element. */
  lemma LastSomeAppend<T, U>(xs: seq<T>, x: T, f: T -> Option<U>)
    ensures LastSome(xs + [x], f) == if f(x).Some? then f(x) else LastSome(xs, f)
  {
    assert (xs + [x])[..|xs|] == xs;
  }

  /** Number of occurrences of `x` in `s`. */
  function Count<T(==)>(s: seq<T>, x: T): nat
    decreases |s|
  {
    if s == [] then 0 else (if s[0] == x then 1 else 0) + Count(s[1..], x)
  }

  predicate NoDuplicates<T(==)>(s: seq<T>)
  {
    forall i, j :: 0 <= i < j < |s| ==> s[i] != s[j]
  }

  /** Filtering keeps a list free of duplicates. */
  lemma {:induction false} FilterNoDuplicates<T>(s: seq<T>, p: T -> bool)
    requires NoDuplicates(s)
    ensures NoDuplicates(Filter(s, p))
    decreases |s|
  {
    if s != [] {
      var rest := Filter(s[1..], p);
      FilterNoDuplicates(s[1..], p);
      assert s[0] !in s[1..] by {
        forall j | 0 <= j < |s[1..]|
          ensures s[1..][j] != s[0]
        {
          assert s[1..][j] == s[j + 1];
        }
      }
      assert s[0] !in rest;
      var r := Filter(s, p);
      if p(s[0]) {
        assert r == [s[0]] + rest;
        forall i, j | 0 <= i < j < |r|
          ensures r[i] != r[j]
        {
          assert r[j] == rest[j - 1];
          if i > 0 {
            assert r[i] == rest[i - 1];
          }
        }
      } else {
        assert r == rest;
      }
    }
  }

  /** Element `k` of the second part of a concatenation. */
  lemma AppendIndex<T>(a: seq<T>, b: seq<T>, k: nat)
    requires k < |b|
    ensures (a + b)[|a| + k] == b[k]
  {
  }

  /** Concatenation of a list of buffers (`new Blob(buffers)`). */
  function Concat<T>(parts: seq<seq<T>>): seq<T>
    decreases |parts|
  {
    if parts == [] then [] else Concat(parts[..|parts| - 1]) + parts[|parts| - 1]
  }

  /** Total length of a list of buffers. */
  function TotalLength<T>(parts: seq<seq<T>>): nat
    decreases |parts|
  {
    if parts == [] then 0 else TotalLength(parts[..|parts| - 1]) + |parts[|parts| - 1]|
  }

  /** The concatenation holds every part, unchanged and in list order: part `k` starts at
   *  the total length of the parts before it. */
  lemma {:induction false} ConcatLayout<T>(parts: seq<seq<T>>, k: nat)
    requires k < |parts|
    ensures |Concat(parts)| == TotalLength(parts)
    ensures TotalLength(parts[..k]) + |parts[k]| <= |Concat(parts)|
    ensures Concat(parts)[TotalLength(parts[..k])..TotalLength(parts[..k]) + |parts[k]|] == parts[k]
    decreases |parts|
  {
    var n := |parts|;
    ConcatLength(parts);
    if k == n - 1 {
      assert parts[..k] == parts[..n - 1];
      ConcatLength(parts[..k]);
    } else {
      var init := parts[..n - 1];
      ConcatLayout(init, k);
      assert init[..k] == parts[..k];
      assert init[k] == parts[k];
      var lo := TotalLength(parts[..k]);
      var c := Concat(init);
      assert Concat(parts) == c + parts[n - 1];
      assert Concat(parts)[lo..lo + |parts[k]|] == c[lo..lo + |parts[k]|];
    }
  }

  lemma {:induction false} ConcatLength<T>(parts: seq<seq<T>>)
    ensures |Concat(parts)| == TotalLength(parts)
    decreases |parts|
  {
    if parts != [] {
      ConcatLength(parts[..|parts| - 1]);
    }
  }
}
