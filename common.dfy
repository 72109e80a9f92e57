/**
 * Small value-level helpers shared by every module: an optional value (JavaScript's
 * `undefined`/`null`), and the list operations the source performs with
 * `Array.prototype.filter`, `map`, `find` and spread-concatenation.
 */
module Common {

  datatype Option<T> = None | Some(value: T)

  /** `xs.filter(p)`: the elements satisfying `p`, in their original order. */
  function Filter<T>(xs: seq<T>, p: T -> bool): (r: seq<T>)
    ensures |r| <= |xs|
  {
    if xs == [] then []
    else if p(xs[0]) then [xs[0]] + Filter(xs[1..], p) else Filter(xs[1..], p)
  }

  /** An element survives filtering exactly when it was there and satisfies `p`. */
  lemma {:induction false} FilterMembers<T>(xs: seq<T>, p: T -> bool, x: T)
    ensures x in Filter(xs, p) <==> x in xs && p(x)
  {
    if xs != [] {
      FilterMembers(xs[1..], p, x);
      assert xs == [xs[0]] + xs[1..];
    }
  }

  lemma {:induction false} FilterAppend<T>(xs: seq<T>, ys: seq<T>, p: T -> bool)
    ensures Filter(xs + ys, p) == Filter(xs, p) + Filter(ys, p)
  {
    if xs != [] {
      var zs := xs + ys;
      assert zs[0] == xs[0];
      assert zs[1..] == xs[1..] + ys;
      FilterAppend(xs[1..], ys, p);
      assert Filter(zs, p) == (if p(xs[0]) then [xs[0]] else []) + Filter(zs[1..], p);
    } else {
      assert xs + ys == ys;
    }
  }

  /** Every multiset count of a filtered list is the original count or zero. */
  lemma {:induction false} FilterCount<T>(xs: seq<T>, p: T -> bool, x: T)
    ensures multiset(Filter(xs, p))[x] == if p(x) then multiset(xs)[x] else 0
  {
    if xs != [] {
      var rest := xs[1..];
      FilterCount(rest, p, x);
      assert xs == [xs[0]] + rest;
      assert multiset(xs) == multiset([xs[0]]) + multiset(rest);
      if p(xs[0]) {
        assert multiset(Filter(xs, p)) == multiset([xs[0]]) + multiset(Filter(rest, p));
      } else {
        assert Filter(xs, p) == Filter(rest, p);
      }
    }
  }

  /** Filtering twice with the same predicate changes nothing the second time. */
  lemma {:induction false} FilterIdempotent<T>(xs: seq<T>, p: T -> bool)
    ensures Filter(Filter(xs, p), p) == Filter(xs, p)
  {
    if xs != [] {
      FilterIdempotent(xs[1..], p);
    }
  }

  /** `xs.map(f)`. */
  function Map<T, U>(xs: seq<T>, f: T -> U): (r: seq<U>)
    ensures |r| == |xs|
    ensures forall i :: 0 <= i < |xs| ==> r[i] == f(xs[i])
  {
    if xs == [] then [] else [f(xs[0])] + Map(xs[1..], f)
  }

  /** `xs.find(p)`: the first element satisfying `p`, if any. */
  function Find<T>(xs: seq<T>, p: T -> bool): (r: Option<T>)
    ensures r.None? <==> forall i :: 0 <= i < |xs| ==> !p(xs[i])
    ensures r.Some? ==> r.value in xs && p(r.value)
    ensures r.Some? ==> exists i :: 0 <= i < |xs| && xs[i] == r.value && forall j :: 0 <= j < i ==> !p(xs[j])
  {
    if xs == [] then None
    else if p(xs[0]) then Some(xs[0])
    else
      var r := Find(xs[1..], p);
      assert r.Some? ==> exists i :: 1 <= i < |xs| && xs[i] == r.value && forall j :: 0 <= j < i ==> !p(xs[j]) by {
        if r.Some? {
          var k :| 0 <= k < |xs| - 1 && xs[1..][k] == r.value && forall j :: 0 <= j < k ==> !p(xs[1..][j]);
          assert xs[k + 1] == r.value;
          assert forall j :: 0 <= j < k + 1 ==> !p(xs[j]) by {
            forall j | 0 <= j < k + 1 ensures !p(xs[j]) {
              if j > 0 { assert xs[j] == xs[1..][j - 1]; }
            }
          }
        }
      }
      r
  }

  function Last<T>(xs: seq<T>): T
    requires |xs| > 0
  {
    xs[|xs| - 1]
  }

  /** Concatenation of a list of lists (`[].concat(...xss)`). */
  function Flatten<T>(xss: seq<seq<T>>): (r: seq<T>)
  {
    if xss == [] then [] else Flatten(xss[..|xss| - 1]) + xss[|xss| - 1]
  }

  lemma FlattenSnoc<T>(xss: seq<seq<T>>, xs: seq<T>)
    ensures Flatten(xss + [xs]) == Flatten(xss) + xs
  {
    assert (xss + [xs])[..|xss|] == xss;
  }

  lemma {:induction false} FlattenAppend<T>(xss: seq<seq<T>>, yss: seq<seq<T>>)
    ensures Flatten(xss + yss) == Flatten(xss) + Flatten(yss)
  {
    if yss == [] {
      assert xss + yss == xss;
    } else {
      var init := yss[..|yss| - 1];
      assert xss + yss == (xss + init) + [Last(yss)];
      assert yss == init + [Last(yss)];
      FlattenSnoc(xss + init, Last(yss));
      FlattenAppend(xss, init);
      FlattenSnoc(init, Last(yss));
    }
  }

  lemma FilterCons<T>(h: T, t: seq<T>, p: T -> bool)
    ensures Filter([h] + t, p) == (if p(h) then [h] else []) + Filter(t, p)
  {
    var s := [h] + t;
    assert s[0] == h && s[1..] == t;
  }

  /**
   * A head that `p` rejects, or that comes with nothing kept before the rest, may move past
   * what is kept before the rest.
   */
  lemma FilterPastHead<T>(h: T, xs: seq<T>, ys: seq<T>, before: seq<T>, p: T -> bool)
    requires Filter(xs, p) == before + Filter(ys, p)
    requires !p(h) || before == []
    ensures Filter([h] + xs, p) == before + Filter([h] + ys, p)
  {
    var kept: seq<T> := if p(h) then [h] else [];
    FilterCons(h, xs, p);
    FilterCons(h, ys, p);
    assert kept + before == before + kept by {
      if p(h) {
        assert before == [];
      }
    }
    calc {
      Filter([h] + xs, p);
      kept + (before + Filter(ys, p));
      { AppendAssoc(kept, before, Filter(ys, p)); }
      (before + kept) + Filter(ys, p);
      { AppendAssoc(before, kept, Filter(ys, p)); }
      before + (kept + Filter(ys, p));
    }
  }

  lemma AppendAssoc<T>(a: seq<T>, b: seq<T>, c: seq<T>)
    ensures a + (b + c) == (a + b) + c
  {
  }

  /** `[f(0), f(1), ..., f(n - 1)]`, built one element at a time. */
  function Tabulate<T>(f: nat -> T, n: nat): (r: seq<T>)
    ensures |r| == n
  {
    if n == 0 then [] else Tabulate(f, n - 1) + [f(n - 1)]
  }

  lemma {:induction false} TabulateAt<T>(f: nat -> T, n: nat)
    ensures forall i :: 0 <= i < n ==> Tabulate(f, n)[i] == f(i)
  {
    if n > 0 {
      TabulateAt(f, n - 1);
    }
  }

  /** The value at each index below `n` is an element of the tabulation. */
  lemma TabulateMember<T>(f: nat -> T, n: nat, k: nat)
    requires k < n
    ensures f(k) in Tabulate(f, n)
  {
    TabulateAt(f, n);
    assert Tabulate(f, n)[k] == f(k);
  }

  /** Every element of a tabulation is the value at some index. */
  lemma TabulateIndex<T>(f: nat -> T, n: nat, x: T) returns (k: nat)
    requires x in Tabulate(f, n)
    ensures k < n && f(k) == x
  {
    TabulateAt(f, n);
    var i :| 0 <= i < n && Tabulate(f, n)[i] == x;
    k := i;
  }

  /** Sum over a list of a numeric projection (a `reduce` with `+` starting at 0). */
  function SumOf<T>(xs: seq<T>, f: T -> real): real
  {
    if xs == [] then 0.0 else f(xs[0]) + SumOf(xs[1..], f)
  }

  lemma {:induction false} SumOfAppend<T>(xs: seq<T>, ys: seq<T>, f: T -> real)
    ensures SumOf(xs + ys, f) == SumOf(xs, f) + SumOf(ys, f)
  {
    if xs != [] {
      assert (xs + ys)[0] == xs[0];
      assert (xs + ys)[1..] == xs[1..] + ys;
      SumOfAppend(xs[1..], ys, f);
    } else {
      assert xs + ys == ys;
    }
  }
}
