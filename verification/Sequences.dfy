/** Sums, selections and permutations of sequences. */
module Sequences {

  function Sum(xs: seq<real>): real {
    if xs == [] then 0.0 else Sum(xs[..|xs| - 1]) + xs[|xs| - 1]
  }

  function Where<T>(xs: seq<T>, p: T -> bool): (r: seq<T>)
    ensures |r| <= |xs|
  {
    if xs == [] then []
    else
      var front := Where(xs[..|xs| - 1], p);
      if p(xs[|xs| - 1]) then front + [xs[|xs| - 1]] else front
  }

  lemma {:induction false} WhereHolds<T>(xs: seq<T>, p: T -> bool)
    ensures forall x :: x in Where(xs, p) ==> p(x)
  {
    if xs != [] {
      WhereHolds(xs[..|xs| - 1], p);
    }
  }

  lemma SumNothing()
    ensures Sum([]) == 0.0
  {
  }

  lemma SumSnoc(xs: seq<real>, x: real)
    ensures Sum(xs + [x]) == Sum(xs) + x
  {
    assert (xs + [x])[..|xs|] == xs;
  }

  lemma {:induction false} SumAppend(xs: seq<real>, ys: seq<real>)
    ensures Sum(xs + ys) == Sum(xs) + Sum(ys)
  {
    if ys == [] {
      assert xs + ys == xs;
    } else {
      var front := ys[..|ys| - 1];
      assert (xs + ys)[..|xs + ys| - 1] == xs + front;
      SumAppend(xs, front);
    }
  }

  lemma WhereNothing<T>(p: T -> bool)
    ensures Where([], p) == []
  {
  }

  lemma WhereSnoc<T>(xs: seq<T>, x: T, p: T -> bool)
    ensures Where(xs + [x], p) == if p(x) then Where(xs, p) + [x] else Where(xs, p)
  {
    assert (xs + [x])[..|xs|] == xs;
  }

  /** The sequence without its element at `i`. */
  function Without<T>(xs: seq<T>, i: nat): seq<T>
    requires i < |xs|
  {
    xs[..i] + xs[i + 1..]
  }

  lemma WithoutMultiset<T>(xs: seq<T>, i: nat)
    requires i < |xs|
    ensures multiset(xs) == multiset(Without(xs, i)) + multiset{xs[i]}
  {
    assert xs == xs[..i] + [xs[i]] + xs[i + 1..];
  }

  lemma SumWithout(xs: seq<real>, i: nat)
    requires i < |xs|
    ensures Sum(xs) == Sum(Without(xs, i)) + xs[i]
  {
    hide Sum;
    assert xs[..i] + [xs[i]] + xs[i + 1..] == xs;
    SumAppend(xs[..i] + [xs[i]], xs[i + 1..]);
    SumSnoc(xs[..i], xs[i]);
    SumAppend(xs[..i], xs[i + 1..]);
  }

  lemma SameButOne<T>(xs: seq<T>, ys: seq<T>) returns (i: nat)
    requires multiset(xs) == multiset(ys) && xs != []
    ensures i < |ys| && ys[i] == xs[|xs| - 1] && multiset(xs[..|xs| - 1]) == multiset(Without(ys, i))
  {
    var last := |xs| - 1;
    assert xs[last] in multiset(xs);
    assert xs[last] in ys;
    i :| i < |ys| && ys[i] == xs[last];
    WithoutMultiset(ys, i);
    WithoutMultiset(xs, last);
    assert Without(xs, last) == xs[..last];
    assert multiset(xs[..last]) == multiset(xs) - multiset{xs[last]};
    assert multiset(Without(ys, i)) == multiset(ys) - multiset{ys[i]};
  }

  /** A sum does not depend on the order. */
  lemma {:induction false} SumPermutes(xs: seq<real>, ys: seq<real>)
    requires multiset(xs) == multiset(ys)
    ensures Sum(xs) == Sum(ys)
    decreases |xs|
  {
    if xs == [] {
      assert |multiset(ys)| == 0;
    } else {
      var i := SameButOne(xs, ys);
      SumPermutes(xs[..|xs| - 1], Without(ys, i));
      SumWithout(ys, i);
    }
  }

  /** The elements at these indices, in their order. */
  function Pick<T>(xs: seq<T>, indices: seq<nat>): (r: seq<T>)
    requires forall i :: i in indices ==> i < |xs|
    ensures |r| == |indices|
  {
    seq(|indices|, i requires 0 <= i < |indices| => assert indices[i] in indices; xs[indices[i]])
  }

  function Range(n: nat): seq<nat> {
    seq(n, i => i)
  }

  lemma {:induction false} PickPermutes<T>(xs: seq<T>, a: seq<nat>, b: seq<nat>)
    requires multiset(a) == multiset(b)
    requires (forall i :: i in a ==> i < |xs|) && (forall i :: i in b ==> i < |xs|)
    ensures multiset(Pick(xs, a)) == multiset(Pick(xs, b))
    decreases |a|
  {
    if a == [] {
      assert |multiset(b)| == 0;
    } else {
      var j := SameButOne(a, b);
      var front := a[..|a| - 1];
      assert forall i :: i in front ==> i in a;
      assert forall i :: i in Without(b, j) ==> i in b;
      PickPermutes(xs, front, Without(b, j));
      WithoutMultiset(Pick(xs, b), j);
      assert Without(Pick(xs, b), j) == Pick(xs, Without(b, j));
      WithoutMultiset(Pick(xs, a), |a| - 1);
      assert Without(Pick(xs, a), |a| - 1) == Pick(xs, front);
    }
  }

  /** Taking the elements in a permuted order permutes the sequence. */
  lemma PickIsPermutation<T>(xs: seq<T>, order: seq<nat>)
    requires multiset(order) == multiset(Range(|xs|))
    ensures forall i :: i in order ==> i < |xs|
    ensures multiset(Pick(xs, order)) == multiset(xs)
  {
    forall i | i in order ensures i < |xs| {
      assert i in multiset(order);
      assert i in Range(|xs|);
    }
    PickPermutes(xs, order, Range(|xs|));
    assert Pick(xs, Range(|xs|)) == xs;
  }

  lemma MultisetMiddle<T>(a: seq<T>, m: seq<T>, b: seq<T>)
    ensures multiset(a + m + b) == multiset(a + b) + multiset(m)
    ensures multiset(a + (b + m)) == multiset(a + b) + multiset(m)
  {
  }

  /** Moving the elements that satisfy `p` to the front permutes the sequence. */
  lemma {:induction false} SplitPermutes<T>(xs: seq<T>, p: T -> bool, q: T -> bool)
    requires forall x :: x in xs ==> (p(x) <==> !q(x))
    ensures multiset(Where(xs, p) + Where(xs, q)) == multiset(xs)
  {
    hide Where;
    if xs == [] {
      WhereNothing(p);
      WhereNothing(q);
    } else {
      var front, x := xs[..|xs| - 1], xs[|xs| - 1];
      SplitPermutes(front, p, q);
      assert xs == front + [x];
      WhereSnoc(front, x, p);
      WhereSnoc(front, x, q);
      MultisetMiddle(Where(front, p), [x], Where(front, q));
    }
  }

  lemma AppendSnoc<T>(xs: seq<T>, ys: seq<T>, y: T)
    ensures xs + (ys + [y]) == xs + ys + [y]
  {
  }

  lemma {:induction false} WhereAppend<T>(xs: seq<T>, ys: seq<T>, p: T -> bool)
    ensures Where(xs + ys, p) == Where(xs, p) + Where(ys, p)
  {
    hide Where;
    if ys == [] {
      assert xs + ys == xs;
      WhereNothing(p);
    } else {
      var front, y := ys[..|ys| - 1], ys[|ys| - 1];
      WhereAppend(xs, front, p);
      assert ys == front + [y];
      AppendSnoc(xs, front, y);
      WhereSnoc(xs + front, y, p);
      WhereSnoc(front, y, p);
      AppendSnoc(Where(xs, p), Where(front, p), y);
    }
  }

  lemma WhereSplit<T>(a: seq<T>, x: T, b: seq<T>, p: T -> bool)
    ensures Where(a + [x] + b, p) == Where(a, p) + (if p(x) then [x] else []) + Where(b, p)
    ensures Where(a + b, p) == Where(a, p) + Where(b, p)
  {
    hide Where;
    WhereAppend(a + [x], b, p);
    WhereSnoc(a, x, p);
    WhereAppend(a, b, p);
  }

  lemma WithoutParts<T>(xs: seq<T>, i: nat)
    requires i < |xs|
    ensures Without(xs, i) == xs[..i] + xs[i + 1..]
    ensures xs == xs[..i] + [xs[i]] + xs[i + 1..]
  {
  }

  lemma WhereWithout<T>(xs: seq<T>, i: nat, p: T -> bool)
    requires i < |xs|
    ensures multiset(Where(xs, p)) == multiset(Where(Without(xs, i), p)) + if p(xs[i]) then multiset{xs[i]} else multiset{}
  {
    hide *;
    var a, x, b := xs[..i], xs[i], xs[i + 1..];
    WithoutParts(xs, i);
    WhereSplit(a, x, b, p);
    MultisetMiddle(Where(a, p), if p(x) then [x] else [], Where(b, p));
  }

  /** Selecting from a permutation selects a permutation. */
  lemma {:induction false} WherePermutes<T>(xs: seq<T>, ys: seq<T>, p: T -> bool)
    requires multiset(xs) == multiset(ys)
    ensures multiset(Where(xs, p)) == multiset(Where(ys, p))
    decreases |xs|
  {
    if xs == [] {
      assert |multiset(ys)| == 0;
    } else {
      var i := SameButOne(xs, ys);
      var last := |xs| - 1;
      hide Where;
      WherePermutes(xs[..last], Without(ys, i), p);
      WhereWithout(ys, i, p);
      WhereWithout(xs, last, p);
      assert Without(xs, last) == xs[..last];
    }
  }

  // ---------- Gains and losses ----------

  predicate Gain(x: real) {
    x > 0.0
  }

  predicate Loss(x: real) {
    x < 0.0
  }

  predicate NotGain(x: real) {
    !Gain(x)
  }

  predicate NotLoss(x: real) {
    !Loss(x)
  }

  function Wins(pnls: seq<real>): seq<real> {
    Where(pnls, Gain)
  }

  function Losses(pnls: seq<real>): seq<real> {
    Where(pnls, Loss)
  }

  /** Gains and losses together make up the sum. */
  lemma {:induction false} WinsAndLosses(pnls: seq<real>)
    ensures Sum(Wins(pnls)) + Sum(Losses(pnls)) == Sum(pnls)
    ensures Sum(Wins(pnls)) >= 0.0 && Sum(Losses(pnls)) <= 0.0
    ensures |Wins(pnls)| + |Losses(pnls)| <= |pnls|
  {
    hide Sum, Where;
    if pnls == [] {
      WhereNothing(Gain);
      WhereNothing(Loss);
      SumNothing();
    } else {
      var front, x := pnls[..|pnls| - 1], pnls[|pnls| - 1];
      WinsAndLosses(front);
      assert pnls == front + [x];
      WhereSnoc(front, x, Gain);
      WhereSnoc(front, x, Loss);
      SumSnoc(front, x);
      SumSnoc(Wins(front), x);
      SumSnoc(Losses(front), x);
    }
  }
}
