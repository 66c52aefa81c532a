/** Lists without repeats, and taking elements out of them. */
module Lists {

  predicate Distinct<T(==)>(xs: seq<T>) {
    forall i, j :: 0 <= i < j < |xs| ==> xs[i] != xs[j]
  }

  /** Without any occurrence of `x`. */
  function Without(xs: seq<string>, x: string): seq<string> {
    if xs == [] then []
    else (if xs[0] != x then [xs[0]] else []) + Without(xs[1..], x)
  }

  /** Without the first occurrence of `x`. */
  function WithoutFirst(xs: seq<string>, x: string): seq<string> {
    if xs == [] then [] else if xs[0] == x then xs[1..] else [xs[0]] + WithoutFirst(xs[1..], x)
  }

  /** Without the empty texts. */
  function Filled(ss: seq<string>): seq<string> {
    if ss == [] then [] else (if ss[0] == "" then [] else [ss[0]]) + Filled(ss[1..])
  }

  lemma {:induction false} WithoutSnoc(xs: seq<string>, last: string, x: string)
    ensures Without(xs + [last], x) == Without(xs, x) + if last == x then [] else [last]
    decreases |xs|
  {
    if xs == [] {
      assert [] + [last] == [last];
    } else {
      assert (xs + [last])[1..] == xs[1..] + [last];
      WithoutSnoc(xs[1..], last, x);
    }
  }

  lemma {:induction false} WithoutMembers(xs: seq<string>, x: string)
    ensures forall y :: y in Without(xs, x) <==> y in xs && y != x
    ensures x !in xs ==> Without(xs, x) == xs
    decreases |xs|
  {
    if xs != [] {
      WithoutMembers(xs[1..], x);
      assert xs == [xs[0]] + xs[1..];
    }
  }

  lemma {:induction false} WithoutCount(xs: seq<string>, x: string, y: string)
    ensures multiset(Without(xs, x))[y] == if y == x then 0 else multiset(xs)[y]
    decreases |xs|
  {
    if xs != [] {
      WithoutCount(xs[1..], x, y);
      assert xs == [xs[0]] + xs[1..];
    }
  }

  lemma {:induction false} WithoutDistinct(xs: seq<string>, x: string)
    requires Distinct(xs)
    ensures Distinct(Without(xs, x))
    decreases |xs|
  {
    if xs != [] {
      WithoutMembers(xs[1..], x);
      WithoutDistinct(xs[1..], x);
      assert xs[0] !in Without(xs[1..], x);
    }
  }

  lemma {:induction false} WithoutFirstAt(xs: seq<string>, i: nat, x: string)
    requires i < |xs| && xs[i] == x && x !in xs[..i]
    ensures WithoutFirst(xs, x) == xs[..i] + xs[i + 1..]
    decreases |xs|
  {
    if i > 0 {
      assert xs[0] in xs[..i];
      assert xs[1..][..i - 1] == xs[..i][1..];
      WithoutFirstAt(xs[1..], i - 1, x);
      assert xs[..i] == [xs[0]] + xs[1..][..i - 1];
    }
  }

  lemma {:induction false} WithoutFirstMembers(xs: seq<string>, x: string)
    requires Distinct(xs)
    ensures forall y :: y in WithoutFirst(xs, x) <==> y in xs && y != x
    ensures Distinct(WithoutFirst(xs, x))
    decreases |xs|
  {
    if xs != [] {
      assert xs == [xs[0]] + xs[1..];
      WithoutFirstMembers(xs[1..], x);
      assert xs[0] !in xs[1..] && xs[0] !in WithoutFirst(xs[1..], x);
    }
  }

  lemma OneMore(x: string, xs: seq<string>)
    ensures multiset([x] + xs) == multiset{x} + multiset(xs)
  {
  }

  lemma TakenLater(m: multiset<string>, x: string, y: string)
    requires x != y
    ensures multiset{x} + (m - multiset{y}) == multiset{x} + m - multiset{y}
  {
  }

  lemma {:induction false} WithoutFirstCount(xs: seq<string>, x: string)
    ensures multiset(WithoutFirst(xs, x)) == multiset(xs) - multiset{x}
    decreases |xs|
  {
    if xs != [] {
      assert xs == [xs[0]] + xs[1..];
      assert multiset(xs) == multiset{xs[0]} + multiset(xs[1..]);
      if xs[0] != x {
        WithoutFirstCount(xs[1..], x);
        OneMore(xs[0], WithoutFirst(xs[1..], x));
        TakenLater(multiset(xs[1..]), xs[0], x);
      }
    }
  }

  lemma {:induction false} DistinctCount(xs: seq<string>)
    requires Distinct(xs)
    ensures |set x | x in xs| == |xs|
    decreases |xs|
  {
    if xs != [] {
      var rest := xs[1..];
      DistinctCount(rest);
      assert (set x | x in xs) == (set x | x in rest) + {xs[0]};
      assert xs[0] !in rest;
    }
  }

  lemma {:induction false} DistinctOnce(xs: seq<string>, x: string)
    requires Distinct(xs)
    ensures multiset(xs)[x] == if x in xs then 1 else 0
    decreases |xs|
  {
    if xs != [] {
      assert xs == [xs[0]] + xs[1..];
      assert xs[0] !in xs[1..];
      DistinctOnce(xs[1..], x);
    }
  }

  lemma SameDistinct(a: seq<string>, b: seq<string>)
    requires Distinct(a) && Distinct(b) && forall x :: x in a <==> x in b
    ensures multiset(a) == multiset(b)
  {
    forall x
      ensures multiset(a)[x] == multiset(b)[x]
    {
      DistinctOnce(a, x);
      DistinctOnce(b, x);
    }
  }
}
