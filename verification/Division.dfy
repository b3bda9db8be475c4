// Quotient and remainder by repeated subtraction, for the offsets and periods
// that the other modules compute with.
module Division {

  // The number of values of an unsigned 32-bit integer.
  const TWO32: nat := 0x1_0000_0000

  function Min(a: nat, b: nat): nat {
    if a < b then a else b
  }

  function Max(a: nat, b: nat): nat {
    if a < b then b else a
  }

  function Quot(n: nat, d: nat): nat
    requires d > 0
  {
    if n < d then 0 else 1 + Quot(n - d, d)
  }

  function Rem(n: nat, d: nat): (r: nat)
    requires d > 0
    ensures r < d
  {
    if n < d then n else Rem(n - d, d)
  }

  // The value of an unsigned 32-bit integer after wrap-around.
  function AsU32(n: nat): (v: nat)
    ensures v < TWO32
    ensures n < TWO32 ==> v == n
  {
    Rem(n, TWO32)
  }

  lemma {:induction false} QuotRem(n: nat, d: nat)
    requires d > 0
    ensures n == Quot(n, d) * d + Rem(n, d)
  {
    if n >= d {
      QuotRem(n - d, d);
      assert (1 + Quot(n - d, d)) * d == d + Quot(n - d, d) * d;
    }
  }

  lemma {:induction false} Unique(n: nat, d: nat, q: nat, r: nat)
    requires d > 0 && n == q * d + r && r < d
    ensures Quot(n, d) == q && Rem(n, d) == r
  {
    if q > 0 {
      assert q * d == (q - 1) * d + d;
      Unique(n - d, d, q - 1, r);
    }
  }

  lemma IsDivision(n: nat, d: nat)
    requires d > 0
    ensures Quot(n, d) == n / d && Rem(n, d) == n % d
  {
    assert n == (n / d) * d + n % d;
    Unique(n, d, n / d, n % d);
  }

  // Stepping n to n+1 starts a new period exactly when d divides n+1.
  lemma {:induction false} PeriodStep(n: nat, d: nat)
    requires d > 0
    ensures Quot(n, d) != Quot(n + 1, d) <==> (n + 1) % d == 0
  {
    IsDivision(n + 1, d);
    QuotRem(n, d);
    var q, r := Quot(n, d), Rem(n, d);
    if r + 1 < d {
      Unique(n + 1, d, q, r + 1);
    } else {
      assert (q + 1) * d == q * d + d;
      Unique(n + 1, d, q + 1, 0);
    }
  }

  lemma {:induction false} MulOrder(a: nat, b: nat, d: nat)
    requires a <= b
    ensures a * d <= b * d
    ensures a < b ==> a * d + d <= b * d
  {
    if a < b {
      MulOrder(a, b - 1, d);
      assert b * d == (b - 1) * d + d;
    }
  }

  lemma QuotMono(m: nat, n: nat, d: nat)
    requires d > 0 && m <= n
    ensures Quot(m, d) <= Quot(n, d)
  {
    QuotRem(m, d);
    QuotRem(n, d);
    if Quot(n, d) < Quot(m, d) {
      MulOrder(Quot(n, d), Quot(m, d), d);
    }
  }
}
