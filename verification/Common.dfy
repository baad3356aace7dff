// Small shared vocabulary: optional values, results, and the C# `int` range.
module Common {
  datatype Option<+T> = None | Some(value: T)

  datatype Outcome<+T> = Ok(value: T) | Failed

  const INT32_MAX: int := 0x7FFF_FFFF
  const INT32_MIN: int := -0x8000_0000

  type Int32 = x: int | -0x8000_0000 <= x < 0x8000_0000

  /** C# unchecked `int` arithmetic: reduce modulo 2^32 into the signed range. */
  function WrapInt32(x: int): (r: Int32)
    ensures (r - x) % 0x1_0000_0000 == 0
  {
    var low := x % 0x1_0000_0000;
    if low < 0x8000_0000 then low else low - 0x1_0000_0000
  }

  lemma PrependAssociates<T>(a: seq<T>, b: seq<T>, c: seq<T>)
    ensures a + (b + c) == (a + b) + c
  {
  }

  lemma ConcatSplits<T>(a: seq<T>, b: seq<T>)
    requires a != []
    ensures a + b != [] && (a + b)[0] == a[0] && (a + b)[1..] == a[1..] + b
  {
  }

  /** The images of the elements under `f`, joined in order. */
  function FlatMap<T, U>(f: T -> seq<U>, xs: seq<T>): seq<U> {
    if xs == [] then [] else f(xs[0]) + FlatMap(f, xs[1..])
  }

  lemma {:induction false} FlatMapConcat<T, U>(f: T -> seq<U>, xs: seq<T>, ys: seq<T>)
    ensures FlatMap(f, xs + ys) == FlatMap(f, xs) + FlatMap(f, ys)
  {
    if xs == [] {
      assert xs + ys == ys;
    } else {
      ConcatSplits(xs, ys);
      FlatMapConcat(f, xs[1..], ys);
      PrependAssociates(f(xs[0]), FlatMap(f, xs[1..]), FlatMap(f, ys));
    }
  }

  // ---------------------------------------------------------------- division

  lemma NestedDivision(n: nat, a: nat, b: nat)
    requires a > 0 && b > 0
    ensures a * b > 0 && n / (a * b) == n / a / b
  {
    var q, r := n / a / b, n / a % b;
    assert n == (q * b + r) * a + n % a;
    assert (q * b + r) * a == q * (a * b) + r * a;
    ProductBelow(r, a, b);
    var rest := r * a + n % a;
    assert n == q * (a * b) + rest && 0 <= rest < a * b;
    QuotientUnique(n, a * b, q, rest);
  }

  lemma ProductBelow(r: nat, a: nat, b: nat)
    requires a > 0 && r < b
    ensures r * a + a <= a * b
  {
    assert (r + 1) * a <= b * a by {
      ProductMonotone(r + 1, b, a);
    }
  }

  lemma ProductMonotone(x: nat, y: nat, a: nat)
    requires x <= y
    ensures x * a <= y * a
  {
  }

  lemma QuotientUnique(n: nat, d: nat, q: nat, r: nat)
    requires d > 0 && n == q * d + r && r < d
    ensures n / d == q
  {
    var q' := n / d;
    if q' < q {
      ProductMonotone(q' + 1, q, d);
    } else if q < q' {
      ProductMonotone(q + 1, q', d);
    }
  }
}
