/** Products, quotients and remainders of natural numbers, as the models of grids, blocks and
    strides need them. */
module Arithmetic {
  lemma {:induction false} MulLess(x: nat, y: nat, b: nat)
    requires x < y
    ensures x * b + b <= y * b
  {
    assert (y - x - 1) * b >= 0;
    assert y * b == x * b + b + (y - x - 1) * b;
  }

  lemma {:induction false} TimesMonotone(x: nat, y: nat, b: nat)
    requires x <= y
    ensures x * b <= y * b
  {
    if x < y {
      MulLess(x, y, b);
    }
  }

  lemma {:induction false} TimesNext(a: nat, b: nat)
    ensures a * (b + 1) == a * b + a
    ensures (b + 1) * a == b * a + a
  {
  }

  /** A product with a factor 0 is 0. */
  lemma {:induction false} FactorUsed(a: nat, b: nat, x: nat)
    requires x < a * b
    ensures a > 0 && b > 0
  {
  }

  lemma {:induction false} Division(a: nat, b: nat)
    requires b > 0
    ensures a == (a / b) * b + a % b && 0 <= a % b < b && a / b >= 0
  {
  }

  lemma {:induction false} DivModUnique(a: nat, b: nat, q: nat, r: nat)
    requires b > 0 && r < b && a == q * b + r
    ensures a / b == q && a % b == r
  {
    Division(a, b);
    if a / b < q {
      MulLess(a / b, q, b);
    } else if a / b > q {
      MulLess(q, a / b, b);
    }
  }

  lemma {:induction false} ModUnique(a: int, b: nat, q: int, r: nat)
    requires b > 0 && r < b && a == q * b + r
    ensures a % b == r
  {
    assert a == (a / b) * b + a % b;
    var d := q - a / b;
    assert d * b == a % b - r;
  }

  /** Which block of equal size a number falls into. */
  lemma {:induction false} InBlock(x: nat, block: nat, count: nat)
    requires x < count * block && block > 0
    ensures x / block < count && (x / block) * block <= x < (x / block) * block + block
  {
    Division(x, block);
    if x / block >= count {
      TimesMonotone(count, x / block, block);
    }
  }
}
