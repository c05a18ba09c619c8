/** Small facts and functions shared by the components. */
module Sequences {

  // How a concatenation is bracketed does not matter.
  lemma Associative<T>(a: seq<T>, b: seq<T>, c: seq<T>)
    ensures (a + b) + c == a + (b + c)
  {
  }

  lemma RightNested4<T>(a: seq<T>, b: seq<T>, c: seq<T>, d: seq<T>)
    ensures a + b + c + d == a + (b + (c + d))
  {
  }

  lemma RightNested5<T>(a: seq<T>, b: seq<T>, c: seq<T>, d: seq<T>, e: seq<T>)
    ensures a + b + c + d + e == a + (b + (c + (d + e)))
  {
    RightNested4(a + b, c, d, e);
    Associative(a, b, c + (d + e));
  }

  lemma RightNested7<T>(a: seq<T>, b: seq<T>, c: seq<T>, d: seq<T>, e: seq<T>, f: seq<T>, g: seq<T>)
    ensures a + b + c + d + e + f + g == a + (b + (c + (d + (e + (f + g)))))
  {
    RightNested5(a + b + c, d, e, f, g);
    RightNested4(a, b, c, d + (e + (f + g)));
  }

  // Three or four parts behind `a`, and their length.
  lemma Behind3<T>(a: seq<T>, b: seq<T>, c: seq<T>, d: seq<T>)
    ensures a + (b + c + d) == a + b + c + d
    ensures |a + (b + c + d)| == |a| + |b| + |c| + |d|
  {
  }

  lemma Behind4<T>(a: seq<T>, b: seq<T>, c: seq<T>, d: seq<T>, e: seq<T>)
    ensures a + (b + c + d + e) == a + b + c + d + e
    ensures |a + (b + c + d + e)| == |a| + |b| + |c| + |d| + |e|
  {
    Behind3(a, b, c, d);
    Associative(a, b + c + d, e);
  }

  lemma InnerNested<T>(a: seq<T>, b: seq<T>, c: seq<T>, d: seq<T>)
    ensures a + (b + c) + d == a + (b + (c + d))
  {
  }

  function Min(a: nat, b: nat): nat {
    if a <= b then a else b
  }

  function Power2(k: nat): (p: nat)
    ensures p > 0
  {
    if k == 0 then 1 else 2 * Power2(k - 1)
  }
}
