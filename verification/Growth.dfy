/** pow2gt: rounding a buffer size up to a power of two with shifts and ors. */
module Growth {

  /** `a | b` of non-negative integers. */
  function Or(a: nat, b: nat): nat {
    if a == 0 then b
    else if b == 0 then a
    else 2 * Or(a / 2, b / 2) + if a % 2 == 1 || b % 2 == 1 then 1 else 0
  }

  /** `a >> s` */
  function Shr(a: nat, s: nat): nat {
    if s == 0 then a else Shr(a / 2, s - 1)
  }

  function Smear(x: nat, s: nat): nat {
    Or(x, Shr(x, s))
  }

  function Pow2gt(x: nat): nat
    requires x > 0
  {
    Smear(Smear(Smear(Smear(Smear(x - 1, 1), 2), 4), 8), 16) + 1
  }

  function Pow2(n: nat): nat {
    if n == 0 then 1 else 2 * Pow2(n - 1)
  }

  /** `n` bits, all set. */
  function AllOnes(n: nat): (a: nat)
    ensures a == Pow2(n) - 1
  {
    if n == 0 then 0 else 2 * AllOnes(n - 1) + 1
  }

  /** `y` has `len` bits, the first `m` of which are set. */
  predicate TopOnes(y: nat, len: nat, m: nat)
    requires m <= len
  {
    if len == m then y == AllOnes(m) else TopOnes(y / 2, len - 1, m)
  }

  lemma {:induction false} OrOnes(z: nat, len: nat, m: nat, q: nat)
    requires m <= len && TopOnes(z, len, m) && len - m <= q <= len
    ensures Or(z, AllOnes(q)) == AllOnes(len)
  {
    if q > 0 {
      var b := AllOnes(q);
      assert b / 2 == AllOnes(q - 1) && b % 2 == 1;
      if len == m {
        assert z / 2 == AllOnes(m - 1);
        OrOnes(z / 2, len - 1, m - 1, q - 1);
      } else {
        OrOnes(z / 2, len - 1, m, q - 1);
      }
    }
  }

  lemma {:induction false} ShrHalf(y: nat, s: nat)
    ensures Shr(y, s) / 2 == Shr(y / 2, s)
  {
    if s > 0 {
      ShrHalf(y / 2, s - 1);
    }
  }

  lemma {:induction false} ShrOnes(y: nat, len: nat, m: nat, s: nat)
    requires m <= len && TopOnes(y, len, m) && len <= m + s
    ensures Shr(y, s) == if s <= len then AllOnes(len - s) else 0
  {
    if s > 0 {
      if len == 0 {
        ShrOnes(0, 0, 0, s - 1);
      } else if len == m {
        assert y / 2 == AllOnes(m - 1);
        ShrOnes(y / 2, len - 1, m - 1, s - 1);
      } else {
        ShrOnes(y / 2, len - 1, m, s - 1);
      }
    }
  }

  /** Or-ing a number with itself shifted by no more than the ones it starts with adds that many ones. */
  lemma {:induction false} SmearOnes(y: nat, len: nat, m: nat, s: nat)
    requires m <= len && TopOnes(y, len, m) && (s <= m || m == len)
    ensures TopOnes(Smear(y, s), len, if m + s < len then m + s else len)
  {
    if len <= m + s {
      ShrOnes(y, len, m, s);
      OrOnes(y, len, m, if s <= len then len - s else 0);
    } else {
      SmearOnes(y / 2, len - 1, m, s);
      ShrHalf(y, s);
      assert Smear(y, s) / 2 == Smear(y / 2, s);
    }
  }

  /** Every positive number has a leading one. */
  lemma {:induction false} LeadingOne(y: nat) returns (len: nat)
    requires y > 0
    ensures len > 0 && TopOnes(y, len, 1) && Pow2(len - 1) <= y < Pow2(len)
  {
    if y == 1 {
      len := 1;
      assert AllOnes(1) == 1;
    } else {
      len := LeadingOne(y / 2);
      len := len + 1;
    }
  }

  lemma {:induction false} Pow2Grows(m: nat, n: nat)
    requires m <= n
    ensures Pow2(m) <= Pow2(n)
  {
    if m < n {
      Pow2Grows(m, n - 1);
    }
  }

  lemma Pow2Of30()
    ensures Pow2(30) == 0x4000_0000 && Pow2(31) == 0x8000_0000
  {
    assert Pow2(10) == 0x400;
    assert Pow2(20) == 0x400 * Pow2(10);
    assert Pow2(30) == 0x400 * Pow2(20);
  }

  /** The smallest power of two that is not below `x`, for every positive int. */
  lemma {:induction false} Pow2gtIsLeastPower(x: nat) returns (n: nat)
    requires 0 < x < 0x8000_0000
    ensures Pow2gt(x) == Pow2(n) && x <= Pow2(n) < 2 * x
  {
    if x == 1 {
      n := 0;
      NothingToSmear();
    } else {
      n := LeadingOne(x - 1);
      Pow2Of30();
      if n > 31 {
        Pow2Grows(31, n - 1);
      }
      SmearAll(x - 1, n);
    }
  }

  lemma NothingToSmear()
    ensures Pow2gt(1) == 1
  {
    ShrOnes(0, 0, 0, 1);
    ShrOnes(0, 0, 0, 2);
    ShrOnes(0, 0, 0, 4);
    ShrOnes(0, 0, 0, 8);
    ShrOnes(0, 0, 0, 16);
  }

  /** The five steps set all of up to 32 bits. */
  lemma {:induction false} SmearAll(y: nat, n: nat)
    requires y > 0 && 0 < n <= 32 && TopOnes(y, n, 1)
    ensures Pow2gt(y + 1) == Pow2(n)
  {
    var a := Smear(y, 1);
    SmearOnes(y, n, 1, 1);
    var b := Smear(a, 2);
    SmearOnes(a, n, if 2 < n then 2 else n, 2);
    var c := Smear(b, 4);
    SmearOnes(b, n, if 4 < n then 4 else n, 4);
    var d := Smear(c, 8);
    SmearOnes(c, n, if 8 < n then 8 else n, 8);
    SmearOnes(d, n, if 16 < n then 16 else n, 16);
    AllSet(Smear(d, 16), n);
  }

  lemma AllSet(y: nat, n: nat)
    requires TopOnes(y, n, n)
    ensures y + 1 == Pow2(n)
  {
  }

  /** The result is an int again exactly when `x` is at most 2^30; above that the addition overflows. */
  lemma {:induction false} Pow2gtFits(x: nat)
    requires 0 < x < 0x8000_0000
    ensures x <= Pow2gt(x)
    ensures Pow2gt(x) < 0x8000_0000 <==> x <= 0x4000_0000
  {
    var n := Pow2gtIsLeastPower(x);
    Pow2Of30();
    if n <= 30 {
      Pow2Grows(n, 30);
    } else {
      Pow2Grows(31, n);
    }
  }
}
