/**
 Reducing a product modulo `b - f` without dividing by it: `b` is congruent to `f`, so
 `high * b + low` is congruent to `high * f + low`.

 Nothing is assumed of the numbers but that `f` is small beside `b`.
 */
module FoldArithmetic {

  ghost predicate Small(f: nat, b: nat) {
    0 < f && f * f + f < b
  }

  lemma RemainderOf(q: int, m: nat, r: nat)
    requires r < m
    ensures (q * m + r) % m == r
  {
    var x := q * m + r;
    var d := x / m - q;
    assert d * m == r - x % m;
    MultipleIsFar(d, m);
  }

  lemma MultipleIsFar(d: int, m: nat)
    ensures d >= 1 ==> d * m >= m
    ensures d <= -1 ==> d * m <= -(m as int)
  {
  }

  lemma MultipleDropsOut(x: nat, k: nat, m: nat)
    requires m > 0
    ensures (x + k * m) % m == x % m
  {
    var q, r := x / m, x % m;
    assert x + k * m == (q + k) * m + r;
    RemainderOf(q + k, m, r);
  }

  lemma ReduceFactor(a: nat, b: nat, m: nat)
    requires m > 0
    ensures (a * b) % m == ((a % m) * b) % m
  {
    var q, r := a / m, a % m;
    assert a * b == r * b + (q * b) * m by {
      assert a == q * m + r;
      assert (q * m + r) * b == (q * m) * b + r * b;
      assert (q * m) * b == (q * b) * m;
    }
    MultipleDropsOut(r * b, q * b, m);
  }

  lemma DivisionParts(p: nat, b: nat)
    requires b > 0
    ensures p == (p / b) * b + p % b && p / b >= 0 && p % b < b
    ensures p >= b ==> p / b >= 1
  {
    if p / b < 1 {
      assert p / b == 0;
    }
  }

  lemma QuotientBound(p: nat, b: nat, q: nat)
    requires b > 0 && p < b * q
    ensures p / b < q
  {
    DivisionParts(p, b);
    AtLeastTimes(p / b, q, b);
  }

  lemma AtLeastTimes(x: nat, q: nat, b: nat)
    ensures x >= q ==> x * b >= q * b
  {
  }

  lemma Monotone(x: nat, y: nat, f: nat)
    requires x <= y
    ensures x * f <= y * f
  {
  }

  function Fold(p: nat, b: nat, f: nat): (r: nat)
    requires b > 0
  {
    DivisionParts(p, b);
    (p / b) * f + p % b
  }

  lemma FoldIsCongruent(p: nat, b: nat, f: nat)
    requires f < b
    ensures Fold(p, b, f) % (b - f) == p % (b - f)
    ensures p >= b ==> Fold(p, b, f) < p
  {
    DivisionParts(p, b);
    var k := p / b;
    assert p == Fold(p, b, f) + k * (b - f) by {
      assert k * b == k * f + k * (b - f);
    }
    MultipleDropsOut(Fold(p, b, f), k, b - f);
    if p >= b {
      assert k * (b - f) >= b - f;
    }
  }

  /** How large a product of two numbers below `b` can be after some folds. */
  ghost predicate FoldedTo(p: nat, passes: nat, b: nat, f: nat) {
    match passes
    case 0 => p < b * b
    case 1 => p < b * (f + 1)
    case 2 => p < f * f + b
    case _ => p < b
  }

  lemma FoldShrinks(p: nat, passes: nat, b: nat, f: nat)
    requires Small(f, b) && FoldedTo(p, passes, b, f) && p >= b
    ensures passes < 3 && FoldedTo(Fold(p, b, f), passes + 1, b, f)
  {
    match passes {
      case 0 => FirstFold(p, b, f);
      case 1 => SecondFold(p, b, f);
      case 2 => ThirdFold(p, b, f);
      case _ =>
    }
  }

  lemma FirstFold(p: nat, b: nat, f: nat)
    requires 0 < b && p < b * b
    ensures Fold(p, b, f) < b * (f + 1)
  {
    QuotientBound(p, b, b);
    DivisionParts(p, b);
    PartsOfFirst(p / b, p % b, b, f);
  }

  lemma PartsOfFirst(high: nat, low: nat, b: nat, f: nat)
    requires high < b && low < b
    ensures high * f + low < b * (f + 1)
  {
    Monotone(high, b, f);
    assert b * (f + 1) == b * f + b;
  }

  lemma SecondFold(p: nat, b: nat, f: nat)
    requires 0 < b && p < b * (f + 1)
    ensures Fold(p, b, f) < f * f + b
  {
    QuotientBound(p, b, f + 1);
    DivisionParts(p, b);
    Monotone(p / b, f, f);
  }

  lemma ThirdFold(p: nat, b: nat, f: nat)
    requires 0 < b && f * f + f < b && b <= p < f * f + b
    ensures Fold(p, b, f) < b
  {
    assert b * 2 == b + b;
    QuotientBound(p, b, 2);
    DivisionParts(p, b);
    assert p / b == 1;
  }

  /** Below `2 * m`, one subtraction reduces modulo `m`. */
  lemma SubtractOnce(v: nat, m: nat)
    requires 0 < m && v < 2 * m
    ensures v % m == if v >= m then v - m else v
  {
    if v >= m {
      RemainderOf(1, m, v - m);
    } else {
      RemainderOf(0, m, v);
    }
  }

  /** The loop: reduces a product of two numbers below `b` to one below `b`, congruent to it. */
  method Reduce(x: nat, y: nat, b: nat, f: nat) returns (p: nat, ghost passes: nat)
    requires Small(f, b) && x < b && y < b
    ensures p < b && p % (b - f) == (x * y) % (b - f)
    ensures passes <= 3
  {
    ProductBelow(x, y, b);
    p, passes := FoldDown(x * y, b, f);
  }

  method FoldDown(product: nat, b: nat, f: nat) returns (p: nat, ghost passes: nat)
    requires Small(f, b) && product < b * b
    ensures p < b && p % (b - f) == product % (b - f)
    ensures passes <= 3
  {
    p, passes := product, 0;
    while p >= b
      invariant passes <= 3 && FoldedTo(p, passes, b, f)
      invariant SameResidue(p, product, b, f)
      decreases p
    {
      FoldStep(p, product, passes, b, f);
      p := Fold(p, b, f);
      passes := passes + 1;
    }
  }

  ghost predicate SameResidue(p: nat, q: nat, b: nat, f: nat)
    requires f < b
  {
    p % (b - f) == q % (b - f)
  }

  lemma FoldStep(p: nat, product: nat, passes: nat, b: nat, f: nat)
    requires Small(f, b) && FoldedTo(p, passes, b, f) && p >= b && SameResidue(p, product, b, f)
    ensures passes < 3 && FoldedTo(Fold(p, b, f), passes + 1, b, f)
    ensures SameResidue(Fold(p, b, f), product, b, f) && Fold(p, b, f) < p
  {
    FoldShrinks(p, passes, b, f);
    FoldIsCongruent(p, b, f);
  }

  lemma ProductBelow(x: nat, y: nat, b: nat)
    requires x < b && y < b
    ensures x * y < b * b
  {
    Monotone(x, b, y);
    Monotone(y, b - 1, b);
    assert (b - 1) * b == b * b - b && b * y == y * b;
  }

  lemma ModRotate(x: nat, y: nat, z: nat, m: nat)
    requires m > 0
    ensures (((x * y) % m) * z) % m == (x * ((y * z) % m)) % m
    ensures (((x * y) % m) * z) % m == (((x * z) % m) * y) % m
  {
    ReduceFactor(x * y, z, m);
    ReduceFactor(y * z, x, m);
    ReduceFactor(x * z, y, m);
    assert (x * y) * z == (y * z) * x == (x * z) * y;
    assert ((y * z) % m) * x == x * ((y * z) % m);
  }
}
