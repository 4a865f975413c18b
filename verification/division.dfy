// Quotients and remainders.

module Division {

  lemma AtLeast(d: int, m: nat)
    ensures d >= 1 ==> d * m >= m
    ensures d <= -1 ==> d * m + m <= 0
  {
  }

  lemma Residue(n: nat, m: nat, q: nat, r: nat)
    requires r < m && n == q * m + r
    ensures n % m == r && n / m == q
  {
    var d := n / m - q;
    assert d * m == r - n % m;
    AtLeast(d, m);
  }

  lemma SmallerFactor(i: nat, j: nat, m: nat)
    requires m > 0
    ensures i < j <==> i * m < j * m
    ensures i == j <==> i * m == j * m
    ensures i < j ==> (i + 1) * m <= j * m
  {
    AtLeast(j - i, m);
  }

  lemma OneMore(n: int, m: int)
    ensures (n + 1) * m == n * m + m
  {
  }
}
