/** Facts about remainders that several components need. */
module Remainders {
  lemma MultiplesAreFar(a: int, c: nat)
    requires c > 0
    ensures a >= 1 ==> a * c >= c
    ensures a <= -1 ==> a * c <= -(c as int)
  {
    assert a * c == c + (a - 1) * c && a * c == -(c as int) + (a + 1) * c;
  }

  lemma MulAssoc(a: nat, b: nat, c: nat)
    ensures a * (b * c) == a * b * c
  {
  }

  lemma DivMod(n: nat, q: nat, r: nat, c: nat)
    requires r < c && n == q * c + r
    ensures n % c == r
  {
    var d := n / c;
    assert n == d * c + n % c;
    assert (q - d) * c == q * c - d * c;
    MultiplesAreFar(q - d, c);
  }

  lemma ModPlusMultiple(n: nat, k: nat, c: nat)
    requires c > 0
    ensures (n + k * c) % c == n % c
  {
    var d := n / c;
    assert n == d * c + n % c;
    assert (d + k) * c == d * c + k * c;
    DivMod(n + k * c, d + k, n % c, c);
  }

  lemma ModOfMultiple(n: nat, w: nat, c: nat)
    requires c > 0 && w > 0 && w % c == 0
    ensures n % w % c == n % c
  {
    Divided(n, w);
    Divided(w, c);
    ModOfSum(n, n % w, n / w, w / c, w, c);
  }

  lemma Divided(n: nat, w: nat)
    requires w > 0
    ensures n == n / w * w + n % w
  {
  }

  lemma ModOfSum(n: nat, m: nat, a: nat, b: nat, w: nat, c: nat)
    requires c > 0 && n == a * w + m && w == b * c
    ensures n % c == m % c
  {
    MulAssoc(a, b, c);
    ModPlusMultiple(m, a * b, c);
  }
}
