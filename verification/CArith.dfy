// Integer arithmetic as C defines it: division truncates toward zero and the
// remainder takes the sign of the dividend (section 6.5.5 of ISO/IEC 9899:2011).
module CArith {

  const INT_MAX := 0x7fff_ffff

  // A divisor C can divide by.
  type Divisor = d: int | d != 0 witness 1

  function Abs(x: int): nat {
    if x < 0 then -x else x
  }

  // The sgn macro of the filters: zero counts as negative.
  function Sgn(x: int): int {
    if x > 0 then 1 else -1
  }

  function TruncDiv(x: int, d: Divisor): int {
    if (x < 0) == (d < 0) then Abs(x) / Abs(d) else -(Abs(x) / Abs(d))
  }

  function TruncMod(x: int, d: Divisor): int {
    if x < 0 then -(Abs(x) % Abs(d)) else Abs(x) % Abs(d)
  }

  lemma DivisionLaw(x: int, d: Divisor)
    ensures x == d * TruncDiv(x, d) + TruncMod(x, d)
    ensures Abs(TruncMod(x, d)) < Abs(d)
    ensures x >= 0 ==> TruncMod(x, d) >= 0
    ensures x <= 0 ==> TruncMod(x, d) <= 0
    ensures TruncDiv(x, d) == 0 <==> Abs(x) < Abs(d)
  {
    var q, r := NatDivision(Abs(x), Abs(d));
    Signs(d, q);
  }

  lemma NatDivision(n: nat, k: nat) returns (q: nat, r: nat)
    requires k >= 1
    ensures q == n / k && r == n % k
    ensures n == k * q + r && r < k
    ensures q == 0 <==> n < k
  {
    q, r := n / k, n % k;
    if q >= 1 { MulMonotone(k, 1, q); }
  }

  lemma Signs(d: int, q: int)
    ensures d * -q == -(d * q) && -d * q == -(d * q) && -d * -q == d * q
  {
  }

  lemma MulMonotone(k: nat, p: int, q: int)
    requires p <= q
    ensures k * p <= k * q
  {
    assert k * (q - p) >= 0;
  }

  lemma Distribute(k: int, p: int, q: int)
    ensures k * (p + q) == k * p + k * q
  {
  }

  // Quotient and remainder are the only pair with the division law's properties.
  lemma DivisionUnique(x: int, d: Divisor, q: int, r: int)
    requires x == d * q + r && Abs(r) < Abs(d)
    requires x >= 0 ==> r >= 0
    requires x <= 0 ==> r <= 0
    ensures q == TruncDiv(x, d) && r == TruncMod(x, d)
  {
    hide TruncDiv, TruncMod;
    DivisionLaw(x, d);
    var q', r' := TruncDiv(x, d), TruncMod(x, d);
    Distribute(d, q', q - q');
    if q != q' { AtLeastOnce(d, q - q'); }
  }

  lemma AtLeastOnce(d: int, k: int)
    requires k != 0
    ensures Abs(d * k) >= Abs(d)
  {
    MulMonotone(Abs(d), 1, Abs(k));
    Signs(d, k);
    Signs(k, d);
  }
}
