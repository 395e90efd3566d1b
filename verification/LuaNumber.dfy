/** Lua numbers. `tonumber` turns an LSN's decimal text into the nearest IEEE 754
    double (roundTiesToEven, section 4.3.1 of IEEE 754-2019, a 53-bit
    significand). Every double that an integer rounds to is itself an integer. */
module LuaNumber {
  const TWO_52 := 0x10_0000_0000_0000
  const TWO_53 := 0x20_0000_0000_0000

  /** The spacing of doubles at magnitude n: the least power of two u with n < 2^53 * u. */
  function Ulp(n: nat): (u: nat)
    ensures u >= 1 && n < TWO_53 * u
    ensures u > 1 ==> TWO_52 * u <= n
  {
    if n < TWO_53 then 1 else 2 * Ulp(n / 2)
  }

  /** n / u to the nearest integer, ties to the even one. */
  function NearestEven(n: nat, u: nat): nat
    requires u >= 1
  {
    var q, r := n / u, n % u;
    if 2 * r < u || (2 * r == u && q % 2 == 0) then q else q + 1
  }

  function RoundNat(n: nat): nat
  {
    NearestEven(n, Ulp(n)) * Ulp(n)
  }

  /** The double that `tonumber` gives for the decimal text of n. */
  function Round(n: int): int
  {
    if n < 0 then 0 - RoundNat(-n) else RoundNat(n)
  }

  // ---- monotonicity -----------------------------------------------------

  lemma {:induction false} UlpMonotone(n: nat, m: nat)
    requires n <= m
    ensures Ulp(n) == Ulp(m) || 2 * Ulp(n) <= Ulp(m)
  {
    if TWO_53 <= n {
      UlpMonotone(n / 2, m / 2);
    }
  }

  lemma MulMonotone(a: nat, b: nat, u: nat)
    requires a <= b
    ensures a * u <= b * u
  {
  }

  lemma CancelMul(a: nat, b: nat, u: nat)
    requires a * u < b * u
    ensures a < b
  {
    if b <= a {
      MulMonotone(b, a, u);
    }
  }

  lemma QuotientMonotone(n: nat, m: nat, u: nat)
    requires u >= 1 && n <= m
    ensures n / u <= m / u
    ensures n / u == m / u ==> n % u <= m % u
  {
    assert (n / u) * u <= n && m < (m / u + 1) * u;
    CancelMul(n / u, m / u + 1, u);
  }

  lemma NearestEvenMonotone(n: nat, m: nat, u: nat)
    requires u >= 1 && n <= m
    ensures NearestEven(n, u) <= NearestEven(m, u)
  {
    QuotientMonotone(n, m, u);
  }

  lemma NearestEvenBounds(n: nat, u: nat, lo: nat, hi: nat)
    requires u >= 1 && lo * u <= n < hi * u
    ensures lo <= NearestEven(n, u) <= hi
  {
    var q := n / u;
    assert q * u <= n < (q + 1) * u;
    CancelMul(lo, q + 1, u);
    CancelMul(q, hi, u);
  }

  lemma RoundNatMonotone(n: nat, m: nat)
    requires n <= m
    ensures RoundNat(n) <= RoundNat(m)
  {
    var u, v := Ulp(n), Ulp(m);
    UlpMonotone(n, m);
    if u == v {
      NearestEvenMonotone(n, m, u);
      MulMonotone(NearestEven(n, u), NearestEven(m, u), u);
    } else {
      NearestEvenBounds(n, u, 0, TWO_53);
      MulMonotone(NearestEven(n, u), TWO_53, u);
      NearestEvenBounds(m, v, TWO_52, TWO_53);
      MulMonotone(TWO_52, NearestEven(m, v), v);
    }
  }

  /** Rounding keeps the order of LSNs, but may identify neighbours. */
  lemma RoundMonotone(n: int, m: int)
    requires n <= m
    ensures Round(n) <= Round(m)
  {
    if 0 <= n {
      RoundNatMonotone(n, m);
    } else if m < 0 {
      RoundNatMonotone(-m, -n);
    }
  }

  /** Strictly newer as a double means strictly newer as an LSN, for every LSN. */
  lemma StrictlyNewer(n: int, m: int)
    requires Round(n) < Round(m)
    ensures n < m
  {
    if m <= n {
      RoundMonotone(m, n);
    }
  }

  /** Up to 2^53 in magnitude the conversion is exact, so the guard's order is
      the order of the LSNs. */
  lemma ExactUpTo53Bits(n: int)
    requires -TWO_53 <= n <= TWO_53
    ensures Round(n) == n
  {
    assert Ulp(TWO_53) == 2 * Ulp(TWO_52);
  }

  /** The bound is tight: the next LSN after 2^53 is not newer to Lua. */
  lemma TightAt53Bits()
    ensures Round(TWO_53 + 1) == Round(TWO_53)
  {
    assert Ulp(TWO_53) == Ulp(TWO_53 + 1) == 2 * Ulp(TWO_52);
  }

  // ---- Round against its definition -------------------------------------

  function Distance(a: int, b: int): nat
  {
    if a <= b then b - a else a - b
  }

  lemma Multiples(q: nat, k: nat, u: nat)
    ensures k < q ==> k * u + u <= q * u
    ensures k == q + 1 ==> k * u == q * u + u
    ensures q + 1 < k ==> q * u + 2 * u <= k * u
  {
    if k < q {
      MulMonotone(k + 1, q, u);
    } else if q + 1 < k {
      MulMonotone(q + 2, k, u);
    }
  }

  /** n lies r above the multiple a, 0 <= r < u; b is any multiple. */
  lemma NearestAmong(a: nat, r: nat, u: nat, b: nat)
    requires r < u
    requires b + u <= a || b == a || b == a + u || a + 2 * u <= b
    ensures 2 * r <= u ==> Distance(a, a + r) <= Distance(b, a + r)
    ensures u <= 2 * r ==> Distance(a + u, a + r) <= Distance(b, a + r)
    ensures 2 * r < u && b != a ==> Distance(a, a + r) < Distance(b, a + r)
    ensures u < 2 * r && b != a + u ==> Distance(a + u, a + r) < Distance(b, a + r)
  {
  }

  lemma Division(n: nat, u: nat)
    requires u >= 1
    ensures n == (n / u) * u + n % u && n % u < u
    ensures (n / u + 1) * u == (n / u) * u + u
  {
  }

  lemma NearestOf(n: nat, u: nat, k: nat, q: nat, r: nat, near: nat)
    requires u >= 1 && q == n / u && r == n % u && near == NearestEven(n, u)
    ensures Distance(near * u, n) <= Distance(k * u, n)
    ensures Distance(near * u, n) == Distance(k * u, n) && k != near ==> near % 2 == 0
  {
    Division(n, u);
    Multiples(q, k, u);
    var a, b := q * u, k * u;
    assert near == q || near == q + 1;
    assert near * u == if near == q then a else a + u;
    NearestAmong(a, r, u, b);
  }

  /** No multiple of the spacing is closer to n than its rounding, and of two
      equally close ones the rounding takes the even one; negative integers mirror
      the positive ones. */
  lemma NearestMultiple(n: nat, k: nat)
    ensures Round(n) == RoundNat(n) && Round(0 - n) == 0 - RoundNat(n)
    ensures Distance(RoundNat(n), n) <= Distance(k * Ulp(n), n)
    ensures Distance(RoundNat(n), n) == Distance(k * Ulp(n), n) && k != NearestEven(n, Ulp(n)) ==>
              NearestEven(n, Ulp(n)) % 2 == 0
  {
    var u := Ulp(n);
    NearestOf(n, u, k, n / u, n % u, NearestEven(n, u));
  }
}
