/** Where the multiples of a number lie. */
module Multiples {

  lemma MultipleWithin(c: int, b: int)
    requires b > 0
    ensures c < c + b - c % b <= c + b
    ensures (c + b - c % b) % b == 0
  {
    var q := c / b;
    assert c == b * q + c % b;
    assert c + b - c % b == b * (q + 1);
    MultipleOf(b, q + 1);
  }

  lemma MultipleOf(b: int, q: int)
    requires b > 0
    ensures (b * q) % b == 0
  {
    var k, r := b * q / b, b * q % b;
    assert b * (q - k) == r;
    SmallMultiple(b, q - k);
  }

  lemma SmallMultiple(b: int, d: int)
    requires b > 0 && 0 <= b * d < b
    ensures d == 0
  {
  }
}
