/** Small definitions shared by all components. */
module Common {

  datatype Option<+T> = None | Some(value: T)

  datatype Result<+T, +E> = Ok(value: T) | Error(error: E)

  /** How many elements of `xs` satisfy `p`. */
  function Count<A>(xs: seq<A>, p: A -> bool): nat {
    if xs == [] then 0 else (if p(xs[|xs| - 1]) then 1 else 0) + Count(xs[..|xs| - 1], p)
  }

  function One(b: bool): nat { if b then 1 else 0 }

  lemma {:induction false} CountConcat<A>(xs: seq<A>, ys: seq<A>, p: A -> bool)
    ensures Count(xs + ys, p) == Count(xs, p) + Count(ys, p)
    decreases |ys|
  {
    if ys == [] {
      assert xs + ys == xs;
    } else {
      var k := |ys| - 1;
      CountConcat(xs, ys[..k], p);
      assert (xs + ys)[..|xs + ys| - 1] == xs + ys[..k];
    }
  }

  /** Replacing one element changes a count by exactly that element's share. */
  lemma {:induction false} CountUpdate<A>(xs: seq<A>, i: nat, x: A, p: A -> bool)
    requires i < |xs|
    ensures Count(xs[i := x], p) + One(p(xs[i])) == Count(xs, p) + One(p(x))
  {
    var k := |xs| - 1;
    if i == k {
      assert xs[i := x][..k] == xs[..k];
    } else {
      CountUpdate(xs[..k], i, x, p);
      assert xs[i := x][..k] == xs[..k][i := x];
    }
  }

  lemma {:induction false} CountZero<A>(xs: seq<A>, p: A -> bool)
    ensures Count(xs, p) == 0 <==> forall i :: 0 <= i < |xs| ==> !p(xs[i])
  {
    if xs != [] {
      var k := |xs| - 1;
      CountZero(xs[..k], p);
      if Count(xs, p) == 0 {
        forall i | 0 <= i < |xs| ensures !p(xs[i]) {
          if i < k { assert !p(xs[..k][i]); }
        }
      } else if p(xs[k]) {
      } else {
        var i :| 0 <= i < k && p(xs[..k][i]);
        assert p(xs[i]);
      }
    }
  }

  lemma SizeWith<K, V>(m: map<K, V>, k: K, v: V)
    ensures |m[k := v]| == |m| + One(k !in m)
  {
    assert m[k := v].Keys == m.Keys + {k};
    if k in m { assert m.Keys + {k} == m.Keys; }
  }

  lemma SizeWithout<K, V>(m: map<K, V>, k: K)
    ensures |m - {k}| == |m| - One(k in m)
  {
    assert (m - {k}).Keys == m.Keys - {k};
    if k !in m { assert m.Keys - {k} == m.Keys; }
  }
}
