/**
 Shared vocabulary of the scrapers: optional values, the (title, link) pair a
 feed listing produces, and the sequence facts (filtering, subsequences,
 duplicate-freedom) that every variant's loops rely on.
 */
module Common {

  /** Python's `None`-or-value, as returned by `dict.get` and by BeautifulSoup's `find`. */
  datatype Option<+T> = None | Some(value: T) {

    /** The value, or `default` when absent (Python's `x if x else default` on a present/absent value). */
    function GetOr(default: T): T {
      match this
      case Some(v) => v
      case None => default
    }
  }

  /** One listed post: a `(title, link)` tuple. Its identity is the link. */
  datatype Post = Post(title: string, link: string)

  /** The links of a list of posts, in the same order. */
  function Links(ps: seq<Post>): (r: seq<string>)
    ensures |r| == |ps|
    ensures forall i :: 0 <= i < |ps| ==> r[i] == ps[i].link
  {
    seq(|ps|, i requires 0 <= i < |ps| => ps[i].link)
  }

  /** No value occurs twice. */
  predicate NoDup<T(==)>(s: seq<T>) {
    forall i, j :: 0 <= i < j < |s| ==> s[i] != s[j]
  }

  /** `xs` can be obtained from `ys` by deleting elements (order is kept).
      Greedy matching is complete, so the definition is deterministic. */
  predicate Subseq<T(==)>(xs: seq<T>, ys: seq<T>)
    decreases |ys|
  {
    if xs == [] then true
    else if ys == [] then false
    else if xs[0] == ys[0] then Subseq(xs[1..], ys[1..])
    else Subseq(xs, ys[1..])
  }

  /** Python's list comprehension `[x for x in xs if p(x)]`: the elements that
      satisfy `p`; empty exactly when none does. `FilterKeepsOrder` adds that
      order and multiplicities are kept. */
  function Filter<T(==,!new)>(xs: seq<T>, p: T -> bool): (r: seq<T>)
    ensures forall x :: x in r <==> x in xs && p(x)
    ensures |r| <= |xs|
    ensures r == [] <==> forall i :: 0 <= i < |xs| ==> !p(xs[i])
  {
    if xs == [] then []
    else
      var rest := Filter(xs[1..], p);
      assert xs == [xs[0]] + xs[1..];
      if p(xs[0]) then [xs[0]] + rest else rest
  }

  /** The filtered list keeps exactly the occurrences that satisfy `p`: same
      multiplicities, same relative order. */
  lemma {:induction false} FilterKeepsOrder<T(!new)>(xs: seq<T>, p: T -> bool)
    ensures forall x :: multiset(Filter(xs, p))[x] == if p(x) then multiset(xs)[x] else 0
    ensures Subseq(Filter(xs, p), xs)
    decreases |xs|
  {
    if xs != [] {
      FilterKeepsOrder(xs[1..], p);
      var rest := Filter(xs[1..], p);
      assert xs == [xs[0]] + xs[1..];
      if p(xs[0]) {
        assert ([xs[0]] + rest)[1..] == rest;
      } else {
        assert rest == [] || rest[0] != xs[0];
      }
    }
  }

  /** Filtering with a condition every element meets keeps the whole list. */
  lemma {:induction false} FilterAll<T(!new)>(xs: seq<T>, p: T -> bool)
    requires forall i :: 0 <= i < |xs| ==> p(xs[i])
    ensures Filter(xs, p) == xs
    decreases |xs|
  {
    if xs != [] {
      FilterAll(xs[1..], p);
      assert [xs[0]] + xs[1..] == xs;
    }
  }

  /** Filtering by `p` and by its negation `q` splits the input: no occurrence is lost or counted twice. */
  lemma {:induction false} FilterPartition<T(!new)>(xs: seq<T>, p: T -> bool, q: T -> bool)
    requires forall x :: q(x) == !p(x)
    ensures |Filter(xs, p)| + |Filter(xs, q)| == |xs|
    decreases |xs|
  {
    if xs != [] {
      FilterPartition(xs[1..], p, q);
    }
  }

  lemma {:induction false} SubseqSingleton<T>(y: T, ys: seq<T>)
    ensures Subseq([y], ys + [y])
    decreases |ys|
  {
    if ys != [] && ys[0] != y {
      assert (ys + [y])[1..] == ys[1..] + [y];
      SubseqSingleton(y, ys[1..]);
    }
  }

  /** Appending the same element to both sides keeps a subsequence a subsequence. */
  lemma {:induction false} SubseqSnoc<T>(xs: seq<T>, ys: seq<T>, y: T)
    requires Subseq(xs, ys)
    ensures Subseq(xs + [y], ys + [y])
    decreases |ys|
  {
    if xs == [] {
      assert xs + [y] == [y];
      SubseqSingleton(y, ys);
    } else {
      assert ys != [];
      assert (ys + [y])[0] == ys[0] && (ys + [y])[1..] == ys[1..] + [y];
      assert (xs + [y])[0] == xs[0] && (xs + [y])[1..] == xs[1..] + [y];
      if xs[0] == ys[0] {
        SubseqSnoc(xs[1..], ys[1..], y);
      } else {
        SubseqSnoc(xs, ys[1..], y);
      }
    }
  }

  /** Appending to the larger side only keeps a subsequence a subsequence. */
  lemma {:induction false} SubseqExtend<T>(xs: seq<T>, ys: seq<T>, y: T)
    requires Subseq(xs, ys)
    ensures Subseq(xs, ys + [y])
    decreases |ys|
  {
    if xs != [] {
      assert ys != [];
      assert (ys + [y])[0] == ys[0] && (ys + [y])[1..] == ys[1..] + [y];
      if xs[0] == ys[0] {
        SubseqExtend(xs[1..], ys[1..], y);
      } else {
        SubseqExtend(xs, ys[1..], y);
      }
    }
  }

  /** Every element of a subsequence occurs in the sequence it was taken from. */
  lemma {:induction false} SubseqMembers<T>(xs: seq<T>, ys: seq<T>)
    requires Subseq(xs, ys)
    ensures forall x :: x in xs ==> x in ys
    decreases |ys|
  {
    if xs != [] {
      if xs[0] == ys[0] {
        SubseqMembers(xs[1..], ys[1..]);
        assert xs == [xs[0]] + xs[1..];
      } else {
        SubseqMembers(xs, ys[1..]);
      }
    }
  }

  /** A subsequence of a duplicate-free sequence is duplicate-free. */
  lemma {:induction false} SubseqNoDup<T>(xs: seq<T>, ys: seq<T>)
    requires Subseq(xs, ys) && NoDup(ys)
    ensures NoDup(xs)
    decreases |ys|
  {
    if xs != [] {
      assert NoDup(ys[1..]) by {
        assert forall i :: 0 <= i < |ys[1..]| ==> ys[1..][i] == ys[i + 1];
      }
      if xs[0] == ys[0] {
        SubseqNoDup(xs[1..], ys[1..]);
        SubseqMembers(xs[1..], ys[1..]);
        assert ys[0] !in ys[1..];
        forall i, j | 0 <= i < j < |xs|
          ensures xs[i] != xs[j]
        {
          assert xs[j] == xs[1..][j - 1];
          if i > 0 {
            assert xs[i] == xs[1..][i - 1];
          }
        }
      } else {
        SubseqNoDup(xs, ys[1..]);
      }
    }
  }

  /** Python's `str.join` over a list of fragments (`"".join(parts)`). */
  function Concat(ss: seq<string>): string {
    if ss == [] then "" else ss[0] + Concat(ss[1..])
  }

  lemma {:induction false} ConcatAppend(a: seq<string>, b: seq<string>)
    ensures Concat(a + b) == Concat(a) + Concat(b)
    decreases |a|
  {
    if a != [] {
      assert (a + b)[1..] == a[1..] + b;
      ConcatAppend(a[1..], b);
    } else {
      assert a + b == b;
    }
  }

  /** Flattening a list of lists. */
  function Flatten<T>(xss: seq<seq<T>>): seq<T> {
    if xss == [] then [] else xss[0] + Flatten(xss[1..])
  }

  lemma {:induction false} FlattenAppend<T>(a: seq<seq<T>>, b: seq<seq<T>>)
    ensures Flatten(a + b) == Flatten(a) + Flatten(b)
    decreases |a|
  {
    if a != [] {
      assert (a + b)[1..] == a[1..] + b;
      FlattenAppend(a[1..], b);
    } else {
      assert a + b == b;
    }
  }

  function Min(a: int, b: int): int { if a <= b then a else b }
  function Max(a: int, b: int): int { if a >= b then a else b }
}
